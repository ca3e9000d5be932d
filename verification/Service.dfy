/**
 The sync service over its tables.  A method runs under the service lock, so it is one step;
 a transaction that a unique index refuses is rolled back.  Each method is proved to take the
 store exactly where the step functions say, and to answer accordingly.
 */
module ServiceModule {
  import opened Bytes
  import opened Envelope
  import opened Options
  import opened Tables
  import opened Requests
  import opened Steps
  import opened Effects
  import opened Runs
  import opened Blobs
  import opened Budget

  datatype Answer =
    | Ok(fileId: string, revision: int, sequence: int, metaGeneration: int)
    | Refused(error: Error)

  datatype HeadCounts = HeadCounts(envelope: nat, keyEpoch: nat, metadata: nat, fileId: nat, generation: nat)

  datatype Check =
    | EnvelopeCheck | KeyEpochCheck | MetadataCheck | FileIdCheck | GenerationCheck | OrphanHistoryCheck
    | TombstoneCheck | StaleChangeCheck | ShareNameCheck | SentinelCheck | EpochCheck

  datatype Failure = Failure(check: Check, count: nat)

  /** Another live object with the same name, or the same key. */
  predicate ClashesWith(other: Head, h: Head) {
    other.pseudonym == h.pseudonym || (h.canonicalKey != "" && other.canonicalKey == h.canonicalKey)
  }

  ghost predicate RefusesPlaintext(s: Store) {
    forall cur: Option<Head>, q: UploadRequest :: EnvelopeVersion(q.body) == 0 ==> UploadForbidden(s, cur, q).Some?
  }

  /** Before then nobody but the owner is given the migration, and no operator takes it away. */
  ghost predicate HeldUntil(r: RepoState, end: int) {
    (forall id, device, t :: t < end && device != r.migration.owner ==> TakeoverVerdict(r, id, device, t).Some?) &&
    forall s: Store, t: int :: s.repo == r && t < end ==> ExpireLeaseNext(s, t) == s
  }

  ghost predicate OnlyOwnerMigrates(r: RepoState) {
    forall device :: device != r.migration.owner ==> OwnerOnly(r, device).Some?
  }

  /** What is left to do of the migration under way. */
  function Unfinished(s: Store): set<JournalKey> {
    set k | k in s.journal && k.migrationId == s.repo.migration.id &&
      (s.journal[k] == Pending || s.journal[k] == Failed)
  }

  /** A check is reported when it has offenders. */
  function Add(failures: seq<Failure>, check: Check, count: nat): (r: seq<Failure>)
    ensures forall f :: f in r <==> f in failures || (count > 0 && f == Failure(check, count))
  {
    if count == 0 then failures else failures + [Failure(check, count)]
  }

  /** A live object that fails one of the checks on live objects. */
  predicate Offends(s: Store, check: Check, f: string)
    requires f in s.heads
  {
    var h := s.heads[f];
    match check
    case EnvelopeCheck => h.envelope < 3
    case KeyEpochCheck => s.repo.keyEpoch > 0 && h.keyEpoch != s.repo.keyEpoch
    case MetadataCheck => h.encryptedMetadata == "" || h.pseudonym != h.fileId
    case FileIdCheck => !IsHex32(h.fileId)
    case GenerationCheck => !GenerationMonotonic(s, f)
    case _ => false
  }

  function Offenders(s: Store, check: Check, among: set<string>): set<string> {
    set f | f in among && f in s.heads && Offends(s, check, f)
  }

  function Orphans(versions: map<VersionKey, Version>, ledger: map<string, LedgerRow>): set<VersionKey> {
    set k | k in versions && k.0 !in ledger
  }

  function PlainTombstones(tombs: map<string, Tombstone>): set<string> {
    set f | f in tombs && tombs[f].lastPseudonym != tombs[f].fileId
  }

  function StaleChanges(log: seq<Change>, cutoff: int): set<int> {
    set i | 0 <= i < |log| && log[i].sequence > cutoff && log[i].pseudonym != log[i].fileId
  }

  /** How many rows fail a check. */
  function CountOf(s: Store, check: Check, namedShares: nat, sentinels: nat): nat {
    match check
    case OrphanHistoryCheck => |Orphans(s.versions, s.ledger)|
    case TombstoneCheck => |PlainTombstones(s.tombs)|
    case StaleChangeCheck => |StaleChanges(s.log, s.repo.migration.cutoff)|
    case ShareNameCheck => namedShares
    case SentinelCheck => sentinels
    case EpochCheck => if EpochReady(s.repo) then 0 else 1
    case _ => |Offenders(s, check, s.heads.Keys)|
  }

  class Service {
    const o: Oracle
    const c: Config
    var heads: map<string, Head>
    var tombs: map<string, Tombstone>
    var ledger: map<string, LedgerRow>
    var versions: map<VersionKey, Version>
    var log: seq<Change>
    var repo: RepoState
    var journal: map<JournalKey, Stage>
    var devices: map<string, Device>
    const store: BlobStore

    function State(): Store
      reads this, store
    {
      Store(heads, tombs, ledger, versions, log, repo, journal, devices, store.files)
    }

    ghost predicate Valid()
      reads this, store
    {
      Sound(State()) && store.o == o
    }

    constructor (o: Oracle, c: Config, repoEpoch: string)
      ensures this.o == o && this.c == c && fresh(store) && State() == EmptyStore(repoEpoch) && Valid()
    {
      this.o, this.c := o, c;
      heads, tombs, ledger, versions, log := map[], map[], map[], map[], [];
      repo := RepoState(repoEpoch, 0, 0, Plaintext, 0, MetaPlain, 1, 0, NO_MIGRATION);
      journal, devices := map[], map[];
      store := new BlobStore(o);
    }

    // ---------- queries ----------

    method GetHeadByPseudonym(name: string) returns (r: Option<Head>)
      requires NamesUnique(heads)
      ensures r == Named(heads, name)
    {
      NamedIs(heads, name);
      if f :| f in heads && heads[f].pseudonym == name {
        r := Some(heads[f]);
      } else {
        r := None;
      }
    }

    /** A deletion record for a name, else for a canonical key; of several, one of the highest
        deletion revision. */
    method FindTombstone(name: string, key: string) returns (r: Option<Tombstone>)
      ensures r.None? <==> !Barred(tombs, name, key)
      ensures r.Some? ==> exists f :: f in tombs && tombs[f] == r.value && Bars(tombs[f], name, key)
      ensures r.Some? && r.value.lastPseudonym == name ==>
                forall f :: f in tombs && tombs[f].lastPseudonym == name ==>
                  tombs[f].deletionRevision <= r.value.deletionRevision
      ensures r.Some? && r.value.lastPseudonym != name ==>
                forall f :: f in tombs ==>
                  tombs[f].lastPseudonym != name &&
                  (tombs[f].canonicalKey == key ==> tombs[f].deletionRevision <= r.value.deletionRevision)
    {
      var named := set f | f in tombs && tombs[f].lastPseudonym == name;
      var keyed := set f | f in tombs && key != "" && tombs[f].canonicalKey == key;
      assert forall f :: f in tombs && tombs[f].lastPseudonym == name ==> f in named;
      assert forall f :: f in tombs && key != "" && tombs[f].canonicalKey == key ==> f in keyed;
      if named != {} {
        var f := LatestDeletion(named);
        r := Some(tombs[f]);
      } else if keyed != {} {
        var f := LatestDeletion(keyed);
        r := Some(tombs[f]);
        assert f in keyed;
      } else {
        r := None;
      }
    }

    /** ORDER BY deletion_revision DESC LIMIT 1. */
    method LatestDeletion(candidates: set<string>) returns (best: string)
      requires candidates != {} && candidates <= tombs.Keys
      ensures best in candidates && forall f :: f in candidates ==>
              tombs[f].deletionRevision <= tombs[best].deletionRevision
    {
      best :| best in candidates;
      var rest := candidates - {best};
      while rest != {}
        invariant best in candidates && rest <= candidates
        invariant forall f :: f in candidates - rest ==> tombs[f].deletionRevision <= tombs[best].deletionRevision
        decreases rest
      {
        var f :| f in rest;
        if tombs[f].deletionRevision > tombs[best].deletionRevision { best := f; }
        rest := rest - {f};
      }
    }

    method GetPriorContentHash(fileId: string) returns (r: string)
      ensures r == PriorContentHash(versions, fileId)
    {
      if k :| k in versions && k.0 == fileId && versions[k].action != Action.Delete && versions[k].contentHash != "" &&
              forall j :: j in versions && j.0 == k.0 &&
                          versions[j].action != Action.Delete && versions[j].contentHash != "" ==>
                j.1 <= k.1
      {
        assert IsPrior(versions, k);
        assert forall j :: IsPrior(versions, j) && j.0 == fileId ==> j == k;
        r := versions[k].contentHash;
      } else {
        assert forall k :: IsPrior(versions, k) ==> k.0 != fileId;
        r := "";
      }
    }

    /** The change already committed for an object under an operation id. */
    method FindChangeByOperation(fileId: string, op: string) returns (r: Option<Change>)
      ensures r.Some? <==> Logged(log, fileId, op)
      ensures r.Some? ==> r.value in log && r.value.fileId == fileId && r.value.operationId == op
    {
      r := None;
      if op == "" { return; }
      for i := 0 to |log|
        invariant r.None? && forall j :: 0 <= j < i ==> !(log[j].fileId == fileId && log[j].operationId == op)
      {
        if log[i].fileId == fileId && log[i].operationId == op { return Some(log[i]); }
      }
    }

    // ---------- table steps ----------

    /** The head row is written unless another object has its name or its key.  Names and keys
        stay unique, and the object is found under its name. */
    method UpsertHead(h: Head) returns (ok: bool)
      modifies this`heads
      ensures ok == UniqueAllows(old(heads), h)
      ensures heads == if ok then old(heads)[h.fileId := h] else old(heads)
      ensures !ok <==> exists f :: f in old(heads) && f != h.fileId && ClashesWith(old(heads)[f], h)
      ensures old(NamesUnique(heads)) ==> NamesUnique(heads) && (ok ==> Named(heads, h.pseudonym) == Some(h))
    {
      ok := UniqueAllows(heads, h);
      if ok && NamesUnique(heads) { PutKeepsNames(heads, h); }
      if ok { heads := heads[h.fileId := h]; }
    }

    method UpsertObject(fileId: string, live: bool, createdAt: int, deletedAt: int)
      modifies this`ledger
      ensures State() == PutLedger(old(State()), fileId, live, createdAt, deletedAt)
    {
      if fileId in ledger {
        ledger := ledger[fileId := ledger[fileId].(live := live, deletedAt := deletedAt)];
      } else {
        ledger := ledger[fileId := LedgerRow(live, createdAt, deletedAt)];
      }
    }

    method NextSequence() returns (seqNo: int)
      modifies this`repo
      ensures seqNo == old(repo).head + 1 && repo == old(repo).(head := seqNo)
    {
      seqNo := repo.head + 1;
      repo := repo.(head := seqNo);
    }

    /** A change gets the next sequence.  A log without gaps stays so, and whoever has followed it
        up to now is told this change and no other. */
    method InsertChange(change: Change) returns (seqNo: int)
      modifies this`repo, this`log
      ensures seqNo == old(repo).head + 1 && State() == Log(old(State()), change)
      ensures old(LogDense(State())) ==> LogDense(State()) && After(log, old(repo).head) == [change.(sequence := seqNo)]
    {
      LogExtends(State(), change);
      seqNo := NextSequence();
      log := log + [change.(sequence := seqNo)];
    }

    method InsertVersion(v: Version)
      modifies this`versions
      ensures State() == PutVersion(c.(historyEnabled := true), old(State()), v)
    {
      if (v.fileId, v.revision) !in versions {
        versions := versions[(v.fileId, v.revision) := v];
      }
    }

    // ---------- pruning ----------

    /** The versions of an object, newest first. */
    method ListVersions(fileId: string) returns (keys: seq<VersionKey>)
      ensures forall k :: k in keys <==> k in versions && k.0 == fileId
      ensures forall i, j :: 0 <= i < j < |keys| ==> keys[i].1 > keys[j].1
    {
      keys := [];
      var rest := set k | k in versions && k.0 == fileId;
      while rest != {}
        invariant forall k :: k in rest ==> k in versions && k.0 == fileId
        invariant forall k :: k in versions && k.0 == fileId ==> k in rest || k in keys
        invariant forall k :: k in keys ==> k in versions && k.0 == fileId && k !in rest
        invariant forall i, j :: 0 <= i < j < |keys| ==> keys[i].1 > keys[j].1
        invariant forall i, k :: 0 <= i < |keys| && k in rest ==> keys[i].1 > k.1
        decreases rest
      {
        var best := NewestOf(rest);
        keys := keys + [best];
        rest := rest - {best};
      }
    }

    method NewestOf(candidates: set<VersionKey>) returns (best: VersionKey)
      requires candidates != {}
      ensures best in candidates && forall k :: k in candidates ==> k.1 <= best.1
    {
      best :| best in candidates;
      var rest := candidates - {best};
      while rest != {}
        invariant best in candidates && rest <= candidates
        invariant forall k :: k in candidates - rest ==> k.1 <= best.1
        decreases rest
      {
        var k :| k in rest;
        if k.1 > best.1 { best := k; }
        rest := rest - {k};
      }
    }

    /** One row goes; its blob is for collection. */
    method DropRow(k: VersionKey, pruned: seq<string>, ghost was: map<VersionKey, Version>, ghost gone: set<VersionKey>)
      returns (pruned': seq<string>)
      requires k in versions && Dropped(was, gone, versions, pruned)
      modifies this`versions
      ensures k !in gone && versions == old(versions) - {k} && Dropped(was, gone + {k}, versions, pruned')
    {
      var blob := versions[k].blobId;
      versions := versions - {k};
      pruned' := if blob != "" then pruned + [blob] else pruned;
    }

    /** Apply retention to one object's history; the blobs of what went are for collection. */
    method PruneVersionsTx(fileId: string, now: int, days: int, max: int) returns (pruned: seq<string>)
      modifies this`versions
      ensures Dropped(old(versions), Expired(old(versions), fileId, now, days, max), versions, pruned)
    {
      ghost var was, gone: set<VersionKey> := versions, {};
      pruned := [];
      if days <= 0 && max <= 0 {
        assert Expired(was, fileId, now, days, max) == {};
        return;
      }
      var keys := ListVersions(fileId);
      var cutoff := if days > 0 then now - days * 86400 else 0;
      for i := 0 to |keys|
        invariant gone == set j | 0 <= j < i && keys[j] in Expired(was, fileId, now, days, max) :: keys[j]
        invariant Dropped(was, gone, versions, pruned)
      {
        ExpiredIs(was, fileId, now, days, max, keys, i);
        assert keys[i] in keys && keys[i] !in gone;
        if i > 0 && ((max > 0 && i >= max) || (cutoff > 0 && versions[keys[i]].createdAt < cutoff)) {
          pruned := DropRow(keys[i], pruned, was, gone);
          gone := gone + {keys[i]};
        }
      }
      assert gone == Expired(was, fileId, now, days, max);
    }

    /** Remove blobs that no version and no head refers to any more. */
    method GcBlobs(ids: seq<string>)
      modifies store`files
      ensures store.files == map b | b in old(store.files) &&
              !(b in ids && b != "" && !Referenced(heads, versions, b)) :: old(store.files)[b]
    {
      var seen: set<string> := {};
      ghost var was := store.files;
      for i := 0 to |ids|
        invariant seen == set j | 0 <= j < i && ids[j] != "" :: ids[j]
        invariant store.files == map b | b in was && !(b in seen && !Referenced(heads, versions, b)) :: was[b]
      {
        if ids[i] != "" && ids[i] !in seen {
          seen := seen + {ids[i]};
          if !Referenced(heads, versions, ids[i]) { store.Remove(ids[i]); }
        }
      }
    }

    /** Retention of one object followed by the collection of its blobs. */
    method PruneAndCollect(fileId: string, now: int, days: int, max: int, collect: bool)
      modifies this`versions, store`files
      ensures State() == DropVersions(old(State()), Expired(old(versions), fileId, now, days, max), collect)
    {
      ghost var s := State();
      var pruned := PruneVersionsTx(fileId, now, days, max);
      CollectsExactly(s, Expired(s.versions, fileId, now, days, max), pruned);
      if collect { GcBlobs(pruned); }
    }

    // ---------- upload ----------

    /** The decision, check by check.  A refusal by a deletion says which deletion. */
    method DecideUpload(q: UploadRequest) returns (v: Verdict, answer: Answer, barrier: Option<Tombstone>)
      requires Valid()
      ensures v == UploadVerdict(o, State(), q)
      ensures v.Refuse? ==> answer == Refused(v.error)
      ensures v.InEffect? ==> TellsOfUpload(o, State(), q, answer)
      ensures v == Refuse(DeletedConflict) ==>
              barrier.Some? && Bars(barrier.value, q.path, UploadKey(o, None, q)) &&
              exists f :: f in tombs && tombs[f] == barrier.value
    {
      answer, barrier := Refused(InvalidPath), None;
      var malformed := UploadMalformed(o, q);
      if malformed.Some? { return Refuse(malformed.value), Refused(malformed.value), None; }
      var cur := GetHeadByPseudonym(q.path);
      NamedIs(heads, q.path);
      var forbidden := UploadForbidden(State(), cur, q);
      if forbidden.Some? { return Refuse(forbidden.value), Refused(forbidden.value), None; }
      if cur.Some? {
        v, answer := DecideOver(cur.value, q);
      } else {
        v, answer, barrier := DecideNew(q);
      }
    }

    method DecideOver(cur: Head, q: UploadRequest) returns (v: Verdict, answer: Answer)
      ensures v == UploadOver(o, State(), cur, q)
      ensures v.Refuse? ==> answer == Refused(v.error)
      ensures v.InEffect? ==>
                if cur.contentHash == o.hash(q.body)
                then answer == Ok(cur.fileId, cur.revision, repo.head, cur.metaGeneration)
                else IsSavedResult(log, cur.fileId, q.client.operationId, answer)
    {
      var hash := o.hash(q.body);
      if cur.contentHash == hash { return InEffect, Ok(cur.fileId, cur.revision, repo.head, cur.metaGeneration); }
      var prev := FindChangeByOperation(cur.fileId, q.client.operationId);
      if prev.Some? {
        return InEffect, Ok(cur.fileId, prev.value.revision, prev.value.sequence, prev.value.metaGeneration);
      }
      var gen := Generation(q.body);
      if gen.Some? && cur.contentGeneration > 0 && gen.value <= cur.contentGeneration {
        return Refuse(Conflict), Refused(Conflict);
      }
      if q.baseRevision != cur.revision { return Refuse(Conflict), Refused(Conflict); }
      var key := if q.canonicalHash != "" then "h:" + q.canonicalHash else cur.canonicalKey;
      var h := WithContent(o, cur.(revision := cur.revision + 1, canonicalKey := key), q);
      return Commit(h), Ok(h.fileId, h.revision, 0, h.metaGeneration);
    }

    method DecideNew(q: UploadRequest) returns (v: Verdict, answer: Answer, barrier: Option<Tombstone>)
      ensures v == UploadNew(o, State(), q)
      ensures v.Refuse? ==> answer == Refused(v.error)
      ensures !v.InEffect?
      ensures v == Refuse(DeletedConflict) ==>
              barrier.Some? && Bars(barrier.value, q.path, UploadKey(o, None, q)) &&
              exists f :: f in tombs && tombs[f] == barrier.value
    {
      var key := if q.canonicalHash != "" then "h:" + q.canonicalHash else o.canonical(q.path);
      barrier := FindTombstone(q.path, key);
      if barrier.Some? { return Refuse(DeletedConflict), Refused(DeletedConflict), barrier; }
      if q.baseRevision != 0 { return Refuse(Conflict), Refused(Conflict), None; }
      if Collides(heads, key, "") { return Refuse(PathCollision), Refused(PathCollision), None; }
      var fileId := ResolveNewFileId(if ByIdOnly(repo) then q.path else q.clientFileId, q.freshIds);
      if fileId.None? { return Refuse(FileIdConflict), Refused(FileIdConflict), None; }
      var h := WithContent(o, Head(fileId.value, 1, 0, "", "", 0, 0, if q.metaEnc != "" then 1 else 0,
                                   q.path, q.metaEnc, key, 0, 0, q.now, q.now), q);
      return Commit(h), Ok(h.fileId, 1, 0, h.metaGeneration), None;
    }

    method ResolveNewFileId(wanted: string, random: seq<string>) returns (r: Option<string>)
      ensures r == NewFileId(ledger, wanted, random)
    {
      if wanted != "" { return if wanted in ledger then None else Some(wanted); }
      var rest, tries := random, 4;
      while tries > 0 && rest != []
        invariant 0 <= tries && FirstUnused(ledger, random, 4) == FirstUnused(ledger, rest, tries)
        decreases tries
      {
        if rest[0] !in ledger { return Some(rest[0]); }
        rest, tries := rest[1..], tries - 1;
      }
      return None;
    }

    /** The request with what it will meet in the quarantine. */
    ghost function Meeting(q: UploadRequest): UploadRequest
      reads this, store
    {
      q.(quarantineFull := store.QuarantineFull(BlobOf(o, o.hash(q.body))))
    }

    method Upload(q: UploadRequest) returns (r: Answer, barrier: Option<Tombstone>, ghost v: Verdict)
      requires Valid()
      modifies this, store
      ensures Valid() && v == old(UploadVerdict(o, State(), q))
      ensures State() == UploadNext(o, c, old(State()), old(Meeting(q)))
      ensures v.Refuse? ==> r == Refused(v.error)
      ensures v.InEffect? ==> TellsOfUpload(o, old(State()), q, r)
      ensures v.Commit? && r.Ok? ==>
                repo.head == old(repo.head) + 1 &&
                r == Ok(v.head.fileId, v.head.revision, repo.head, v.head.metaGeneration)
      ensures v.Commit? && r.Refused? ==> r.error == StorageFailed
      ensures v == Refuse(DeletedConflict) ==> barrier.Some? && Bars(barrier.value, q.path, UploadKey(o, None, q))
    {
      ghost var q', s := Meeting(q), State();
      SameVerdict(o, s, q, q');
      var verdict;
      verdict, r, barrier := DecideUpload(q);
      v := verdict;
      r := CarryOut(q, verdict, r, q');
      assert State() == UploadNext(o, c, s, q');
      UploadKeepsSound(o, c, s, q');
    }

    /** Only a decision to commit changes anything. */
    method CarryOut(q: UploadRequest, verdict: Verdict, decided: Answer, ghost q': UploadRequest) returns (r: Answer)
      requires store.o == o && (verdict.Commit? ==>
                 q' == q.(quarantineFull := store.QuarantineFull(verdict.head.blobId)))
      modifies this, store
      ensures State() == UploadApply(o, c, old(State()), q', verdict) && store.o == o
      ensures !verdict.Commit? ==> r == decided
      ensures verdict.Commit? && r.Ok? ==>
                repo.head == old(repo.head) + 1 &&
                  r == Ok(verdict.head.fileId, verdict.head.revision, repo.head, verdict.head.metaGeneration)
      ensures verdict.Commit? && r.Refused? ==> r.error == StorageFailed
    {
      r := decided;
      if verdict.Commit? { r := CommitUpload(q, verdict.head, q'); }
    }

    /** Undo a transaction: every table as it was.  Files are not part of a transaction. */
    method Rollback(saved: Store)
      modifies this
      ensures State() == saved.(blobs := old(store.files))
    {
      heads, tombs, ledger, versions := saved.heads, saved.tombs, saved.ledger, saved.versions;
      log, repo, journal, devices := saved.log, saved.repo, saved.journal, saved.devices;
    }

    /** The rows of an upload; false when a unique index refuses the head. */
    method WriteUpload(q: UploadRequest, h: Head) returns (ok: bool)
      modifies this
      ensures ok == UniqueAllows(old(heads), h)
      ensures ok ==> State() == UploadWritten(c, old(State()), h, q)
      ensures !ok ==> store.files == old(store.files)
    {
      UpsertObject(h.fileId, true, h.createdAt, 0);
      ok := UpsertHead(h);
      if !ok { return; }
      var op := q.client.operationId;
      var _ := InsertChange(Change(0, h.fileId, Upsert, h.revision, h.contentGeneration, h.metaGeneration, h.pseudonym,
        h.contentHash, op, q.now));
      if c.historyEnabled {
        InsertVersion(VersionOf(h, if q.action.Some? then q.action.value else Upsert, q.deviceId, op, q.now));
      }
    }

    /** The pruning that goes with an upload, and what is to be collected afterwards. */
    method PruneUpload(q: UploadRequest, h: Head) returns (pruned: seq<string>)
      modifies this`versions
      ensures State() == UploadPruned(o, c, old(State()), h, q.now, false)
      ensures UploadPruned(o, c, old(State()), h, q.now, true) == State().(blobs := Kept(State(), pruned))
    {
      pruned := [];
      if c.historyEnabled {
        ghost var s := State();
        var (days, max) := RetentionFor(o, c, repo.meta, h.pseudonym);
        pruned := PruneVersionsTx(h.fileId, q.now, days, max);
        CollectsExactly(s, Expired(s.versions, h.fileId, q.now, days, max), pruned);
      } else {
      }
    }

    /** The transaction of an upload. */
    method UploadTx(q: UploadRequest, h: Head) returns (ok: bool, pruned: seq<string>)
      modifies this
      ensures ok == (q.fault != BeforeCommit && UniqueAllows(old(heads), h))
      ensures !ok ==> State() == old(State())
      ensures ok ==> State() == UploadPruned(o, c, UploadWritten(c, old(State()), h, q), h, q.now, false)
      ensures ok ==>
                UploadPruned(o, c, UploadWritten(c, old(State()), h, q), h, q.now, true) ==
                State().(blobs := Kept(State(), pruned))
    {
      pruned := [];
      var saved := State();
      ok := WriteUpload(q, h);
      if ok { pruned := PruneUpload(q, h); }
      if !ok || q.fault == BeforeCommit {
        Rollback(saved);
        return false, [];
      }
    }

    method CommitUpload(q: UploadRequest, h: Head, ghost q': UploadRequest) returns (r: Answer)
      requires q' == q.(quarantineFull := store.QuarantineFull(h.blobId)) && store.o == o
      modifies this, store
      ensures State() == UploadApply(o, c, old(State()), q', Commit(h)) && store.o == o
      ensures r.Ok? ==> repo.head == old(repo.head) + 1 && r == Ok(h.fileId, h.revision, repo.head, h.metaGeneration)
      ensures r.Refused? ==> r.error == StorageFailed
    {
      var stored := store.CommitAs(q.body, h.blobId, c.strictVerify, q.fault);
      if stored == NotStored { return Refused(StorageFailed); }
      ghost var s1 := State();
      var ok, pruned := UploadTx(q, h);
      if !ok { return Refused(StorageFailed); }
      CommitIs(o, c, s1, h, q, q');
      if q.fault == AfterCommit { return Refused(StorageFailed); }
      GcBlobs(pruned);
      return Ok(h.fileId, h.revision, repo.head, h.metaGeneration);
    }

    // ---------- delete, rename, restore ----------

    method Delete(q: DeleteRequest) returns (r: Answer, ghost v: Verdict)
      requires Valid()
      modifies this
      ensures Valid() && v == old(DeleteVerdict(o, State(), q))
      ensures State() == DeleteNext(o, c, old(State()), q)
      ensures v.Refuse? ==> r == Refused(v.error)
      ensures v.Commit? ==> r == Ok(v.head.fileId, v.head.revision + 1, repo.head, v.head.metaGeneration)
      ensures v.InEffect? ==> TellsOfDeletion(old(tombs), q.path, r)
    {
      ghost var s := State();
      var verdict;
      verdict, r := DecideDelete(q);
      v := verdict;
      if verdict.Commit? { r := CommitDelete(q, verdict.head); }
      assert State() == DeleteNext(o, c, s, q);
      DeleteKeepsSound(o, c, s, q);
    }

    method DecideDelete(q: DeleteRequest) returns (v: Verdict, answer: Answer)
      requires Valid()
      ensures v == DeleteVerdict(o, State(), q)
      ensures v.Refuse? ==> answer == Refused(v.error)
      ensures v.Commit? ==> v.head.fileId in heads
      ensures v.InEffect? ==> TellsOfDeletion(tombs, q.path, answer)
    {
      if !o.validPath(q.path) { return Refuse(InvalidPath), Refused(InvalidPath); }
      var guard := GuardWrite(repo, q.client, q.deviceId, q.path);
      if guard.Some? { return Refuse(guard.value), Refused(guard.value); }
      var cur := GetHeadByPseudonym(q.path);
      NamedIs(heads, q.path);
      if cur.None? {
        var t := FindTombstone(q.path, "");
        if t.Some? {
          return InEffect, Ok(t.value.fileId, t.value.deletionRevision, t.value.deletionSequence,
                   t.value.metaGeneration);
        }
        return Refuse(NotFound), Refused(NotFound);
      }
      if q.baseRevision != cur.value.revision { return Refuse(Conflict), Refused(Conflict); }
      return Commit(cur.value), Refused(StorageFailed);
    }

    /** The head row moves into the tombstone table. */
    method CommitDelete(q: DeleteRequest, h: Head) returns (r: Answer)
      requires h.fileId in heads
      modifies this
      ensures State() == DeleteApply(c, old(State()), q, Commit(h))
      ensures r == Ok(h.fileId, h.revision + 1, repo.head, h.metaGeneration)
    {
      var prior := GetPriorContentHash(h.fileId);
      if prior == "" { prior := h.contentHash; }
      var op := q.client.operationId;
      var seqNo := InsertChange(Change(0, h.fileId, Action.Delete, h.revision + 1, h.contentGeneration,
        h.metaGeneration, h.pseudonym, "", op, q.now));
      Bury(h, Tombstone(h.fileId, h.pseudonym, h.canonicalKey, h.revision + 1, h.contentGeneration, h.metaGeneration,
                        h.keyEpoch, prior, q.now, seqNo, RetainUntil(c, q.now), false), q.now);
      if c.historyEnabled {
        InsertVersion(Version(h.fileId, h.revision + 1, 0, "", "", 0, h.mtime, Action.Delete, q.deviceId, 0, op,
          q.now));
      }
      return Ok(h.fileId, h.revision + 1, seqNo, h.metaGeneration);
    }

    method Bury(h: Head, t: Tombstone, now: int)
      modifies this`tombs, this`heads, this`ledger
      ensures State() == PutLedger(old(State()).(tombs := old(tombs)[h.fileId := t], heads := old(heads) - {h.fileId}),
                h.fileId, false, h.createdAt, now)
    {
      tombs := tombs[h.fileId := t];
      heads := heads - {h.fileId};
      UpsertObject(h.fileId, false, h.createdAt, now);
    }

    /** Write a live object and publish it, in one transaction. */
    method PublishTx(h: Head, action: Action, op: string, now: int) returns (ok: bool)
      modifies this
      ensures ok == UniqueAllows(old(heads), h)
      ensures State() == if ok then Publish(old(State()), h, action, op, now) else old(State())
    {
      ok := UpsertHead(h);
      if ok {
        var _ := InsertChange(Change(0, h.fileId, action, h.revision, h.contentGeneration, h.metaGeneration,
          h.pseudonym, h.contentHash, op, now));
      }
    }

    method Rename(q: RenameRequest) returns (r: Answer, ghost v: Verdict)
      requires Valid()
      modifies this
      ensures Valid() && v == old(RenameVerdict(o, State(), q))
      ensures State() == RenameNext(o, old(State()), q)
      ensures v.Refuse? ==> r == Refused(v.error)
      ensures v.InEffect? ==> TellsOfRename(old(State()), q, r)
      ensures v.Commit? ==> r == if UniqueAllows(old(heads), v.head)
              then Ok(v.head.fileId, v.head.revision, repo.head, v.head.metaGeneration) else Refused(StorageFailed)
    {
      ghost var e := RenameEffect(o, State(), q);
      EffectKeepsSound(State(), RenameNext(o, State(), q), e);
      var verdict;
      verdict, r := DecideRename(q);
      v := verdict;
      if verdict.Commit? {
        var h := verdict.head;
        var ok := PublishTx(h, Upsert, q.client.operationId, q.now);
        r := if ok then Ok(h.fileId, h.revision, repo.head, h.metaGeneration) else Refused(StorageFailed);
      }
    }

    method DecideRename(q: RenameRequest) returns (v: Verdict, answer: Answer)
      requires NamesUnique(heads)
      ensures v == RenameVerdict(o, State(), q)
      ensures v.Refuse? ==> answer == Refused(v.error)
      ensures v.InEffect? ==> TellsOfRename(State(), q, answer)
    {
      if !o.validPath(q.from) || !o.validPath(q.to) { return Refuse(InvalidPath), Refused(InvalidPath); }
      var guard := GuardWrite(repo, q.client, q.deviceId, q.from);
      if guard.Some? { return Refuse(guard.value), Refused(guard.value); }
      if repo.meta == MetaPlain && q.metaEnc != "" { return Refuse(StateForbids), Refused(StateForbids); }
      if ByIdOnly(repo) && (q.from != q.to || q.metaEnc == "" || q.canonicalHash == "") {
        return Refuse(MetaRequired), Refused(MetaRequired);
      }
      var found := GetHeadByPseudonym(q.from);
      NamedIs(heads, q.from);
      if found.None? { return Refuse(NotFound), Refused(NotFound); }
      var cur := found.value;
      if cur.metaGeneration != q.baseMetaGeneration { return Refuse(MetaCas), Refused(MetaCas); }
      var prev := FindChangeByOperation(cur.fileId, q.client.operationId);
      if prev.Some? {
        answer := Ok(cur.fileId, prev.value.revision, prev.value.sequence, prev.value.metaGeneration);
        assert IsSavedResult(log, cur.fileId, q.client.operationId, answer);
        return InEffect, answer;
      }
      var key := if q.canonicalHash != "" then "h:" + q.canonicalHash else o.canonical(q.to);
      if !ByIdOnly(repo) && q.to != q.from {
        var occupied := GetHeadByPseudonym(q.to);
        if occupied.Some? { return Refuse(Conflict), Refused(Conflict); }
      }
      if Collides(heads, key, cur.fileId) { return Refuse(PathCollision), Refused(PathCollision); }
      return Commit(cur.(pseudonym := q.to, canonicalKey := key, metaGeneration := cur.metaGeneration + 1,
               updatedAt := q.now,
                         encryptedMetadata := if q.metaEnc != "" then q.metaEnc else cur.encryptedMetadata)),
                           Refused(StorageFailed);
    }

    method Restore(q: RestoreRequest) returns (r: Answer, ghost v: Verdict)
      requires Valid()
      modifies this
      ensures Valid() && v == old(RestoreVerdict(o, State(), q))
      ensures State() == RestoreNext(o, c, old(State()), q)
      ensures v.Refuse? ==> r == Refused(v.error)
      ensures v.InEffect? ==> TellsOfRestore(old(State()), q, r)
      ensures v.Commit? ==> r == if UniqueAllows(old(heads), v.head)
              then Ok(v.head.fileId, v.head.revision, repo.head, v.head.metaGeneration) else Refused(StorageFailed)
    {
      ghost var e := RestoreEffect(o, c, State(), q);
      EffectKeepsSound(State(), RestoreNext(o, c, State(), q), e);
      var verdict;
      verdict, r := DecideRestore(q);
      v := verdict;
      if verdict.Commit? {
        r := CommitRestore(q, verdict.head);
      }
    }

    method DecideRestore(q: RestoreRequest) returns (v: Verdict, answer: Answer)
      requires NamesUnique(heads)
      ensures v == RestoreVerdict(o, State(), q)
      ensures v.Refuse? ==> answer == Refused(v.error)
      ensures v.InEffect? ==> TellsOfRestore(State(), q, answer)
    {
      if !IsHex32(q.fileId) || !o.validPath(q.pseudonym) { return Refuse(InvalidPath), Refused(InvalidPath); }
      var guard := GuardWrite(repo, q.client, q.deviceId, q.pseudonym);
      if guard.Some? { return Refuse(guard.value), Refused(guard.value); }
      if ByIdOnly(repo) && (q.pseudonym != q.fileId || q.metaEnc == "" || q.canonicalHash == "") {
        return Refuse(MetaRequired), Refused(MetaRequired);
      }
      var prev := FindChangeByOperation(q.fileId, q.client.operationId);
      if prev.Some? {
        return InEffect, Ok(q.fileId, prev.value.revision, prev.value.sequence, prev.value.metaGeneration);
      }
      if q.fileId !in tombs {
        if q.fileId in heads {
          return InEffect, Ok(q.fileId, heads[q.fileId].revision, 0, heads[q.fileId].metaGeneration);
        }
        if q.fileId in ledger && !ledger[q.fileId].live { return Refuse(TombstonePurged), Refused(TombstonePurged); }
        return Refuse(NotFound), Refused(NotFound);
      }
      v, answer := DecideRevival(q, tombs[q.fileId]);
    }

    method DecideRevival(q: RestoreRequest, t: Tombstone) returns (v: Verdict, answer: Answer)
      requires NamesUnique(heads)
      ensures v == RevivalVerdict(o, State(), q, t) && !v.InEffect?
      ensures v.Refuse? ==> answer == Refused(v.error)
    {
      if q.expectedRevision != t.deletionRevision { return Refuse(StaleRevision), Refused(StaleRevision); }
      if t.contentGeneration > 0 && q.contentGeneration <= t.contentGeneration {
        return Refuse(DeletedConflict), Refused(DeletedConflict);
      }
      var key := if q.canonicalHash != "" then "h:" + q.canonicalHash else o.canonical(q.pseudonym);
      if Collides(heads, key, q.fileId) { return Refuse(PathCollision), Refused(PathCollision); }
      var occupied := GetHeadByPseudonym(q.pseudonym);
      if occupied.Some? && occupied.value.fileId != q.fileId { return Refuse(Conflict), Refused(Conflict); }
      var blob := BlobOf(o, t.priorContentHash);
      var stored := blob != "" && blob in store.files;
      return Commit(Head(q.fileId, t.deletionRevision + 1, q.contentGeneration, blob, t.priorContentHash,
                         if stored then |store.files[blob]| else 0, q.now * 1000, t.metaGeneration + 1,
                         q.pseudonym, q.metaEnc, key, t.keyEpoch, if stored then EnvelopeVersion(store.files[blob])
                           else 0, q.now, q.now)),
             Refused(StorageFailed);
    }

    method CommitRestore(q: RestoreRequest, h: Head) returns (r: Answer)
      modifies this
      ensures State() == RestoreApply(c, old(State()), q, Commit(h))
      ensures r == if UniqueAllows(old(heads), h) then Ok(h.fileId, h.revision, repo.head, h.metaGeneration)
              else Refused(StorageFailed)
    {
      var ok := UpsertHead(h);
      if !ok { return Refused(StorageFailed); }
      var op := q.client.operationId;
      UpsertObject(h.fileId, true, q.now, 0);
      tombs := tombs - {h.fileId};
      var seqNo := InsertChange(Change(0, h.fileId, Action.Restore, h.revision, h.contentGeneration, h.metaGeneration,
        h.pseudonym, h.contentHash, op, q.now));
      if c.historyEnabled { InsertVersion(VersionOf(h, Action.Restore, q.deviceId, op, q.now)); }
      return Ok(h.fileId, h.revision, seqNo, h.metaGeneration);
    }

    // ---------- reading ----------

    /** Changes after a cursor, or a demand to start over when the log no longer reaches back. */
    method GetChanges(since: int, limit: nat) returns (r: Reply)
      requires Valid()
      ensures r == ChangesReply(State(), since, limit)
    {
      if since < repo.minRetained { return Resync(repo.minRetained); }
      var page := ListChanges(since, limit);
      return Changes(page, repo.head, page != [] && page[|page| - 1].sequence < repo.head);
    }

    method ListChanges(since: int, limit: nat) returns (page: seq<Change>)
      ensures page == Page(log, since, limit)
    {
      page := [];
      for i := 0 to |log|
        invariant page == Page(log[..i], since, limit)
      {
        AfterSnoc(log[..i], log[i], since);
        assert log[..i + 1] == log[..i] + [log[i]];
        if log[i].sequence > since && |page| < limit { page := page + [log[i]]; }
      }
      assert log[..|log|] == log;
    }

    /** The live set and the sequence it is of: everything the ledger calls live, under names that
        differ, and no change is left to fetch after it. */
    method Snapshot() returns (sequence: int, objects: map<string, Head>)
      requires Valid()
      ensures objects == heads && forall f :: f in objects <==> f in ledger && ledger[f].live
      ensures forall f, g :: f in objects && g in objects && objects[f].pseudonym == objects[g].pseudonym ==> f == g
      ensures forall limit: nat :: ChangesReply(State(), sequence, limit) == Changes([], sequence, false)
    {
      AfterDense'(State(), repo.head);
      return repo.head, heads;
    }

    // ---------- content encryption ----------

    /** Whether every live object's stored content has at least this envelope version. */
    method HeadsAtLeast(version: int) returns (ok: bool)
      requires 0 < version
      ensures ok == AllContentAtLeast(State(), version)
    {
      var rest := heads.Keys;
      while rest != {}
        invariant rest <= heads.Keys
        invariant forall f :: f in heads && f !in rest ==>
                  heads[f].blobId in store.files && EnvelopeVersion(store.files[heads[f].blobId]) >= version
        decreases rest
      {
        var f :| f in rest;
        var found := if heads[f].blobId in store.files then EnvelopeVersion(store.files[heads[f].blobId]) else 0;
        if found < version { return false; }
        rest := rest - {f};
      }
      return true;
    }

    /** From here on no plaintext is taken, until the migration is given up. */
    method BeginE2eeMigration() returns (r: Option<Error>)
      modifies this`repo
      ensures State() == BeginContentNext(old(State()))
      ensures r == if old(repo).content == Encrypted then Some(StateForbids) else None
      ensures r.None? ==> BeginContentNext(State()) == State() && RefusesPlaintext(State())
    {
      if repo.content == Encrypting { return None; }
      if repo.content == Encrypted { return Some(StateForbids); }
      repo := repo.(content := Encrypting, keyEpoch := repo.keyEpoch + 1);
      return None;
    }

    method CompleteE2eeMigration() returns (r: Option<Error>)
      modifies this`repo
      ensures State() == CompleteContentNext(old(State()))
      ensures r.None? <==> old(repo).content == Encrypting && old(AllContentAtLeast(State(), 1))
    {
      if repo.content != Encrypting { return Some(StateForbids); }
      var ok := HeadsAtLeast(1);
      if !ok { return Some(StateForbids); }
      repo := RaiseEnvelope(repo.(content := Encrypted), 1);
      return None;
    }

    method AbortE2eeMigration() returns (r: Option<Error>)
      modifies this`repo
      ensures State() == AbortContentNext(old(State()))
      ensures r.None? <==> old(repo).content == Encrypting
      ensures r.None? ==>
                !BeginContentNext(State()).repo.content.Plaintext? &&
                BeginContentNext(State()).repo.keyEpoch > old(repo).keyEpoch
    {
      if repo.content != Encrypting { return Some(StateForbids); }
      repo := repo.(content := Plaintext);
      return None;
    }

    method CompleteEnvelopeUpgrade() returns (r: Option<Error>)
      modifies this`repo
      ensures State() == UpgradeEnvelopeNext(old(State()))
      ensures r.None? <==> old(repo).content == Encrypted && old(AllContentAtLeast(State(), 3))
    {
      if repo.content != Encrypted { return Some(StateForbids); }
      var ok := HeadsAtLeast(3);
      if !ok { return Some(EnvelopeTooOld); }
      repo := RaiseEnvelope(repo, 3);
      return None;
    }

    // ---------- metadata migration ----------

    method EnqueueJournal(id: string, kind: JournalKind)
      modifies this`journal
      ensures var k := JournalKey(repo.migration.id, id, kind); journal == if k in old(journal) then old(journal)
              else old(journal)[k := Pending]
    {
      var k := JournalKey(repo.migration.id, id, kind);
      if k !in journal { journal := journal[k := Pending]; }
    }

    /** The journal gets what is still named in plain.  The process may die after `stop` entries;
        then the rest is missing. */
    method EnqueueMigrationJournal(stop: nat) returns (ok: bool, ghost missed: set<JournalKey>)
      modifies this`journal
      ensures missed <= Todo(old(State())) && (ok <==> missed == {})
      ensures State() == Enqueue(old(State()), missed)
    {
      ghost var was, todo := journal, Todo(State());
      var left := EnqueueObjects(stop, was, todo);
      left := EnqueueTombstones(left, was, todo);
      missed := set k | k in todo && k !in journal;
      AllAdded(was, todo - missed, journal);
      ok := left.Some?;
    }

    /** Live objects that still carry a real name, or no encrypted metadata. */
    method EnqueueObjects(stop: nat, ghost was: map<JournalKey, Stage>, ghost todo: set<JournalKey>)
      returns (left: Option<nat>)
      requires Between(was, todo, journal) && todo == Todo(State())
      modifies this`journal
      ensures Between(was, todo, journal) && old(journal).Keys <= journal.Keys
      ensures left.Some? <==> forall k :: k in todo && k.kind == ObjectEntry ==> k in journal
    {
      ghost var before, m := journal, repo.migration.id;
      left := Some(stop);
      var rest := heads.Keys;
      while rest != {}
        invariant rest <= heads.Keys && left.Some? && Between(was, todo, journal) && before.Keys <= journal.Keys
        invariant forall f :: f in heads && f !in rest && JournalKey(m, f, ObjectEntry) in todo ==>
                  JournalKey(m, f, ObjectEntry) in journal
        decreases rest
      {
        var f :| f in rest;
        if !(heads[f].pseudonym == f && heads[f].encryptedMetadata != "") {
          left := EnqueueUpTo(left.value, f, ObjectEntry, was, todo);
          if left.None? { return; }
        }
        rest := rest - {f};
      }
    }

    /** Deletions recorded under a real name; none when the process is dead already. */
    method EnqueueTombstones(stop: Option<nat>, ghost was: map<JournalKey, Stage>, ghost todo: set<JournalKey>)
      returns (left: Option<nat>)
      requires Between(was, todo, journal) && todo == Todo(State())
      requires stop.Some? <==> forall k :: k in todo && k.kind == ObjectEntry ==> k in journal
      modifies this`journal
      ensures Between(was, todo, journal)
      ensures left.Some? <==> forall k :: k in todo ==> k in journal
    {
      if stop.None? { return None; }
      ghost var before, m := journal, repo.migration.id;
      left := stop;
      var rest := tombs.Keys;
      while rest != {}
        invariant rest <= tombs.Keys && left.Some? && Between(was, todo, journal) && before.Keys <= journal.Keys
        invariant forall f :: f in tombs && f !in rest && JournalKey(m, f, TombstoneEntry) in todo ==>
                  JournalKey(m, f, TombstoneEntry) in journal
        decreases rest
      {
        var f :| f in rest;
        if tombs[f].lastPseudonym != f {
          left := EnqueueUpTo(left.value, f, TombstoneEntry, was, todo);
          if left.None? { return; }
        }
        rest := rest - {f};
      }
    }

    /** One entry, unless it is there already; the process dies instead when its time has come. */
    method EnqueueUpTo(left: nat, id: string, kind: JournalKind, ghost was: map<JournalKey, Stage>,
            ghost todo: set<JournalKey>) returns (r: Option<nat>)
      requires Between(was, todo, journal) && JournalKey(repo.migration.id, id, kind) in todo
      modifies this`journal
      ensures Between(was, todo, journal) && old(journal).Keys <= journal.Keys
      ensures r.Some? <==> JournalKey(repo.migration.id, id, kind) in journal
    {
      if JournalKey(repo.migration.id, id, kind) in journal { return Some(left); }
      if left == 0 { return None; }
      EnqueueJournal(id, kind);
      return Some(left - 1);
    }

    method BeginMetaMigration(deviceId: string, newId: string, now: int, stop: nat)
      returns (r: Option<Error>, ghost missed: set<JournalKey>)
      modifies this`repo, this`journal
      ensures State() == BeginNext(old(State()), deviceId, newId, now, missed)
      ensures r == if BeginVerdict(old(repo), deviceId).None? && missed != {} then Some(StorageFailed)
              else BeginVerdict(old(repo), deviceId)
    {
      missed := {};
      if repo.content != Encrypted { return Some(StateForbids), {}; }
      if repo.minEnvelope < 3 { return Some(EnvelopeTooOld), {}; }
      if repo.meta == MetaEncrypted { return Some(StateForbids), {}; }
      if repo.meta != MetaPlain {
        if repo.migration.owner != "" && repo.migration.owner != deviceId { return Some(MigrationLocked), {}; }
        repo := repo.(migration := repo.migration.(leaseExpiresAt := now + LEASE_SECONDS));
        if repo.meta == MetaVerifying { repo := repo.(meta := MetaMigrating); }
      } else {
        repo := repo.(meta := MetaMigrating);
        repo := repo.(migration := Migration(newId, deviceId, now + LEASE_SECONDS, repo.head, repo.formatEpoch + 1,
          repo.keyEpoch));
      }
      var ok;
      ok, missed := EnqueueMigrationJournal(stop);
      r := if ok then None else Some(StorageFailed);
    }

    method TakeoverMigration(migrationId: string, deviceId: string, now: int) returns (r: Option<Error>)
      modifies this`repo
      ensures r == TakeoverVerdict(old(repo), migrationId, deviceId, now)
      ensures State() == TakeoverNext(old(State()), migrationId, deviceId, now)
      ensures r.None? ==>
                repo.migration.owner == deviceId &&
                (old(repo).migration.owner == deviceId || old(repo).migration.leaseExpiresAt <= now)
      ensures r.None? && old(repo).migration.owner != deviceId ==> HeldUntil(repo, now + LEASE_SECONDS)
      ensures r.None? && deviceId != "" ==> OnlyOwnerMigrates(repo)
    {
      var m := repo.migration;
      if m.id == "" { return Some(StateForbids); }
      if migrationId != m.id { return Some(MigrationMismatch); }
      if m.owner == deviceId { return None; }
      if m.leaseExpiresAt > now { return Some(LeaseActive); }
      repo := repo.(migration := Migration(m.id, deviceId, now + LEASE_SECONDS, m.cutoff, m.targetEpoch, m.keyEpoch));
      return None;
    }

    /** The owner keeps its lease alive. */
    method RenewLease(deviceId: string, now: int) returns (r: Option<Error>)
      modifies this`repo
      ensures State() == RenewLeaseNext(old(State()), deviceId, now)
      ensures r.None? <==>
                old(repo).migration.id != "" &&
                (old(repo).migration.owner == "" || old(repo).migration.owner == deviceId)
      ensures repo == old(repo).(migration := old(repo).migration.(leaseExpiresAt := repo.migration.leaseExpiresAt))
      ensures r.None? ==> HeldUntil(repo, now + LEASE_SECONDS)
      ensures r.Some? ==> repo == old(repo)
    {
      var m := repo.migration;
      if m.id == "" { return Some(StateForbids); }
      if m.owner != "" && m.owner != deviceId { return Some(NotOwner); }
      repo := repo.(migration := m.(leaseExpiresAt := now + LEASE_SECONDS));
      return None;
    }

    /** An operator lets go of a lease that ran out. */
    method ExpireStaleMigrationLease(now: int) returns (released: nat)
      modifies this`repo
      ensures State() == ExpireLeaseNext(old(State()), now)
      ensures released == if old(repo).migration.owner != "" && old(repo).migration.leaseExpiresAt <= now then 1 else 0
      ensures released == 0 ==> repo == old(repo)
      ensures released == 1 && repo.migration.id != "" ==>
                forall device, t :: 0 <= t ==> TakeoverVerdict(repo, repo.migration.id, device, t).None?
    {
      if repo.migration.owner == "" || repo.migration.leaseExpiresAt > now { return 0; }
      repo := repo.(migration := repo.migration.(owner := "", leaseExpiresAt := 0));
      return 1;
    }

    method MarkJournalDone(id: string, kind: JournalKind)
      modifies this`journal
      ensures State() == MarkDone(old(State()), id, kind)
    {
      var k := JournalKey(repo.migration.id, id, kind);
      if k in journal { journal := journal[k := Stage.Done]; }
    }

    method MigrateObjectMeta(name: string, metaEnc: string, canonicalHash: string, deviceId: string, now: int)
      returns (r: Option<Error>, ghost v: Verdict)
      requires Valid()
      modifies this
      ensures Valid() && v == old(MigrateObjectVerdict(State(), name, metaEnc, canonicalHash, deviceId, now))
      ensures State() == MigrateObjectNext(old(State()), name, metaEnc, canonicalHash, deviceId, now)
      ensures v.Refuse? ==> r == Some(v.error)
      ensures v.InEffect? ==> r.None?
      ensures v.Commit? ==> r == if UniqueAllows(old(heads), v.head) then None else Some(StorageFailed)
    {
      ghost var e := MigrateObjectEffect(State(), name, metaEnc, canonicalHash, deviceId, now);
      EffectKeepsSound(State(), MigrateObjectNext(State(), name, metaEnc, canonicalHash, deviceId, now), e);
      var cur := GetHeadByPseudonym(name);
      var verdict := DecideMigration(cur, name, metaEnc, canonicalHash, deviceId, now);
      v := verdict;
      r := CommitMigration(cur, now, verdict);
    }

    method DecideMigration(found: Option<Head>, name: string, metaEnc: string, canonicalHash: string, deviceId: string,
            now: int)
      returns (v: Verdict)
      requires found == Named(heads, name)
      ensures v == MigrateObjectVerdict(State(), name, metaEnc, canonicalHash, deviceId, now)
    {
      if metaEnc == "" || !IsHex64(canonicalHash) { return Refuse(MetaRequired); }
      var owner := OwnerOnly(repo, deviceId);
      if owner.Some? { return Refuse(owner.value); }
      if found.None? { return Refuse(NotFound); }
      var cur := found.value;
      if cur.envelope < 3 { return Refuse(PlaintextRejected); }
      if cur.pseudonym == cur.fileId && cur.encryptedMetadata == metaEnc { return InEffect; }
      return Commit(cur.(pseudonym := cur.fileId, encryptedMetadata := metaEnc, canonicalKey := "h:" + canonicalHash,
                         metaGeneration := if cur.metaGeneration < 1 then 1 else cur.metaGeneration, updatedAt := now));
    }

    /** The rewritten head, its change and its journal entry, in one transaction. */
    method CommitMigration(cur: Option<Head>, now: int, v: Verdict) returns (r: Option<Error>)
      modifies this
      ensures State() == MigrateObjectApply(old(State()), cur, now, v)
      ensures v.Refuse? ==> r == Some(v.error)
      ensures v.InEffect? ==> r.None?
      ensures v.Commit? ==> r == if UniqueAllows(old(heads), v.head) then None else Some(StorageFailed)
    {
      match v
      case Refuse(error) => return Some(error);
      case InEffect =>
        if cur.Some? { MarkJournalDone(cur.value.fileId, ObjectEntry); }
        return None;
      case Commit(h) =>
        var ok := PublishTx(h, Upsert, "", now);
        if !ok { return Some(StorageFailed); }
        MarkJournalDone(h.fileId, ObjectEntry);
        return None;
    }

    /** The deletion is the same, and so are all others; it bars its id and the client's keyed hash
        now, and no name any more. */
    method ConvertTombstone(fileId: string, canonicalHash: string, deviceId: string) returns (r: Option<Error>)
      modifies this`tombs, this`journal
      ensures r == MigrateTombstoneVerdict(old(State()), fileId, canonicalHash, deviceId)
      ensures State() == MigrateTombstoneNext(old(State()), fileId, canonicalHash, deviceId)
      ensures r.Some? ==> tombs == old(tombs) && journal == old(journal)
      ensures r.None? ==>
                fileId in old(tombs) && fileId in tombs && tombs == old(tombs)[fileId := tombs[fileId]] &&
                SameDeletion(old(tombs)[fileId], tombs[fileId])
      ensures r.None? ==> forall name, key :: Bars(tombs[fileId], name, key) <==>
              name == fileId || key == "h:" + canonicalHash
    {
      if !IsHex32(fileId) || !IsHex64(canonicalHash) { return Some(MetaRequired); }
      var owner := OwnerOnly(repo, deviceId);
      if owner.Some? { return owner; }
      if fileId !in tombs { return Some(NotFound); }
      tombs := tombs[fileId := tombs[fileId].(lastPseudonym := fileId, canonicalKey := "h:" + canonicalHash)];
      MarkJournalDone(fileId, TombstoneEntry);
      return None;
    }

    /** Pending and failed entries of the migration under way. */
    method UnfinishedJournalCount() returns (n: nat)
      ensures n == |Unfinished(State())|
      ensures n == 0 <==> JournalFinished(State())
    {
      n := 0;
      ghost var todo := Unfinished(State());
      assert forall k :: k in todo <==>
               k in journal && k.migrationId == repo.migration.id &&
               (journal[k] == Pending || journal[k] == Failed);
      var rest := journal.Keys;
      ghost var found: set<JournalKey> := {};
      while rest != {}
        invariant rest <= journal.Keys && found <= todo <= found + rest && found !! rest && n == |found|
        decreases rest
      {
        var k :| k in rest;
        if k.migrationId == repo.migration.id && (journal[k] == Pending || journal[k] == Failed) {
          n := n + 1;
          found := found + {k};
        }
        rest := rest - {k};
      }
      assert found == todo;
      FinishedMeansNone(State());
    }

    method VerifyMetaMigration(deviceId: string) returns (r: Option<Error>)
      modifies this`repo
      ensures r == VerifyVerdict(old(State()), deviceId)
      ensures State() == VerifyNext(old(State()), deviceId)
    {
      if repo.meta == MetaVerifying { return None; }
      var owner := OwnerOnly(repo, deviceId);
      if owner.Some? { return owner; }
      var unfinished := UnfinishedJournalCount();
      if unfinished > 0 { return Some(MigrationIncomplete); }
      repo := repo.(meta := MetaVerifying);
      return None;
    }

    method AbortMetaMigration() returns (r: Option<Error>)
      modifies this`repo, this`journal
      ensures r == if old(repo).meta == MetaMigrating || old(repo).meta == MetaVerifying then None
              else Some(StateForbids)
      ensures State() == AbortNext(old(State()))
      ensures r.None? ==> repo == old(repo).(meta := MetaPlain, migration := NO_MIGRATION)
      ensures r.None? ==> forall k :: k in journal <==> k in old(journal) && k.migrationId != old(repo).migration.id
      ensures r.Some? ==> repo == old(repo) && journal == old(journal)
    {
      if repo.meta != MetaMigrating && repo.meta != MetaVerifying { return Some(StateForbids); }
      var m := repo.migration.id;
      repo := repo.(meta := MetaPlain);
      repo := repo.(migration := NO_MIGRATION);
      journal := map k | k in journal && k.migrationId != m :: journal[k];
      return None;
    }

    /** One pass over the live objects, counting offenders check by check. */
    method CountBadHeads() returns (counts: HeadCounts)
      ensures counts.envelope == |Offenders(State(), EnvelopeCheck, heads.Keys)|
      ensures counts.keyEpoch == |Offenders(State(), KeyEpochCheck, heads.Keys)|
      ensures counts.metadata == |Offenders(State(), MetadataCheck, heads.Keys)|
      ensures counts.fileId == |Offenders(State(), FileIdCheck, heads.Keys)|
      ensures counts.generation == |Offenders(State(), GenerationCheck, heads.Keys)|
    {
      counts := HeadCounts(0, 0, 0, 0, 0);
      var rest := heads.Keys;
      ghost var seen: set<string> := {};
      while rest != {}
        invariant rest !! seen && rest + seen == heads.Keys
        invariant counts.envelope == |Offenders(State(), EnvelopeCheck, seen)|
        invariant counts.keyEpoch == |Offenders(State(), KeyEpochCheck, seen)|
        invariant counts.metadata == |Offenders(State(), MetadataCheck, seen)|
        invariant counts.fileId == |Offenders(State(), FileIdCheck, seen)|
        invariant counts.generation == |Offenders(State(), GenerationCheck, seen)|
        decreases rest
      {
        var f :| f in rest;
        var found := CheckHead(f);
        OneMore(State(), seen, f);
        counts := HeadCounts(counts.envelope + found.envelope, counts.keyEpoch + found.keyEpoch,
          counts.metadata + found.metadata,
                             counts.fileId + found.fileId, counts.generation + found.generation);
        seen, rest := seen + {f}, rest - {f};
      }
      assert seen == heads.Keys;
    }

    /** What one live object adds to the counters. */
    method CheckHead(f: string) returns (found: HeadCounts)
      requires f in heads
      ensures found == HeadCounts(One(State(), EnvelopeCheck, f), One(State(), KeyEpochCheck, f),
                One(State(), MetadataCheck, f),
                                  One(State(), FileIdCheck, f), One(State(), GenerationCheck, f))
    {
      found := HeadCounts(0, 0, 0, 0, 0);
      var h := heads[f];
      if h.envelope < 3 { found := found.(envelope := 1); }
      if repo.keyEpoch > 0 && h.keyEpoch != repo.keyEpoch { found := found.(keyEpoch := 1); }
      if h.encryptedMetadata == "" || h.pseudonym != h.fileId { found := found.(metadata := 1); }
      if !IsHex32(h.fileId) { found := found.(fileId := 1); }
      var maxGen := MaxContentGeneration(f);
      if h.contentGeneration < maxGen { found := found.(generation := 1); }
    }

    /** The largest generation on record for an object, zero when there is none on record. */
    method MaxContentGeneration(f: string) returns (max: int)
      ensures IsMaxGeneration(versions, f, max)
    {
      var best: Option<int> := None;
      var rest := versions.Keys;
      while rest != {}
        invariant rest <= versions.Keys
        invariant forall k :: k in versions && k !in rest && k.0 == f ==>
                  best.Some? && versions[k].contentGeneration <= best.value
        invariant best.Some? ==> exists k :: k in versions && k.0 == f && versions[k].contentGeneration == best.value
        decreases rest
      {
        var k :| k in rest;
        if k.0 == f && (best.None? || versions[k].contentGeneration > best.value) {
          best := Some(versions[k].contentGeneration);
        }
        rest := rest - {k};
      }
      max := if best.Some? then best.value else 0;
    }

    /** Every check that fails, with how many rows fail it; nothing exactly when all pass. */
    method ValidateMetaMigration(namedShares: nat, sentinels: nat) returns (failures: seq<Failure>)
      ensures failures == Report(State(), namedShares, sentinels)
      ensures forall f :: f in failures <==> f.count > 0 && f.count == CountOf(State(), f.check, namedShares, sentinels)
      ensures failures == [] <==> Validates(State(), namedShares, sentinels)
    {
      var counts := CountBadHeads();
      failures := Add([], EnvelopeCheck, counts.envelope);
      failures := Add(failures, KeyEpochCheck, counts.keyEpoch);
      failures := Add(failures, MetadataCheck, counts.metadata);
      failures := Add(failures, FileIdCheck, counts.fileId);
      failures := Add(failures, GenerationCheck, counts.generation);
      failures := CheckTables(failures, namedShares, sentinels);
      ReportIsExact(State(), namedShares, sentinels);
      ReportedExactly(State(), failures, namedShares, sentinels);
    }

    method CheckTables(found: seq<Failure>, namedShares: nat, sentinels: nat) returns (failures: seq<Failure>)
      ensures failures == TableReport(State(), found, namedShares, sentinels)
    {
      var orphans, plain, stale := |Orphans(versions, ledger)|, |PlainTombstones(tombs)|,
        |StaleChanges(log, repo.migration.cutoff)|;
      var notReady := if repo.migration.targetEpoch <= repo.formatEpoch || repo.minEnvelope < 3 then 1 else 0;
      failures := Add(found, OrphanHistoryCheck, orphans);
      failures := Add(failures, TombstoneCheck, plain);
      failures := Add(failures, StaleChangeCheck, stale);
      failures := Add(failures, ShareNameCheck, namedShares);
      failures := Add(failures, SentinelCheck, sentinels);
      failures := Add(failures, EpochCheck, notReady);
    }

    method CompleteMetaMigration(migrationId: string, deviceId: string, namedShares: nat, sentinels: nat,
            erasure: Erasure)
      returns (r: Option<Error>, failures: seq<Failure>)
      modifies this`repo, this`journal, this`log
      ensures r == CompleteVerdict(old(State()), migrationId, deviceId, namedShares, sentinels, erasure)
      ensures State() == CompleteNext(old(State()), migrationId, deviceId, namedShares, sentinels, erasure)
    {
      if repo.meta == MetaEncrypted { return None, []; }
      r, failures := DecideCompletion(migrationId, deviceId, namedShares, sentinels, erasure);
      if r.None? { SwitchToEncrypted(); }
    }

    method DecideCompletion(migrationId: string, deviceId: string, namedShares: nat, sentinels: nat, erasure: Erasure)
      returns (r: Option<Error>, failures: seq<Failure>)
      requires repo.meta != MetaEncrypted
      ensures r == CompleteVerdict(State(), migrationId, deviceId, namedShares, sentinels, erasure)
    {
      failures := [];
      if repo.meta != MetaVerifying { return Some(StateForbids), []; }
      if migrationId != "" && migrationId != repo.migration.id { return Some(MigrationMismatch), []; }
      if repo.migration.owner != "" && deviceId != repo.migration.owner { return Some(NotOwner), []; }
      failures := ValidateMetaMigration(namedShares, sentinels);
      if failures != [] { return Some(ValidationFailed), failures; }
      if erasure == WipeFailed { return Some(StorageFailed), []; }
      if erasure == Residual { return Some(ValidationFailed), [Failure(SentinelCheck, 1)]; }
      return None, [];
    }

    /** The switch: the log that still names names goes, and every cursor with it. */
    method SwitchToEncrypted()
      modifies this`repo, this`journal, this`log
      ensures State() == Switched(old(State()))
    {
      var m := repo.migration;
      repo := repo.(meta := MetaEncrypted);
      if repo.formatEpoch < m.targetEpoch { repo := repo.(formatEpoch := m.targetEpoch); }
      log := [];
      if repo.minRetained < repo.head { repo := repo.(minRetained := repo.head); }
      repo := repo.(migration := NO_MIGRATION);
      journal := map k | k in journal && k.migrationId != m.id :: journal[k];
    }

    // ---------- maintenance ----------

    /** The lowest sequence any active device has confirmed, and how many there are. */
    method MinAckedSequence() returns (min: int, count: nat)
      ensures count == 0 <==> ActiveDevices(State()) == {}
      ensures count > 0 ==> forall n :: n <= min <==> AllAcked(State(), n)
    {
      min, count := -1, 0;
      var active := set d | d in devices && !devices[d].revoked;
      var rest := active;
      while rest != {}
        invariant rest <= active && (count == 0 <==> rest == active) && (count == 0 <==> min < 0)
        invariant forall d :: d in active - rest ==> min <= devices[d].acked
        invariant count > 0 ==> exists d :: d in active - rest && devices[d].acked == min
        decreases rest
      {
        var d :| d in rest;
        count := count + 1;
        if min < 0 || devices[d].acked < min { min := devices[d].acked; }
        rest := rest - {d};
      }
      if min < 0 { min := 0; }
    }

    method PurgeTombstones(now: int) returns (purged: nat)
      modifies this`tombs
      ensures State() == PurgeNext(c, old(State()), now)
      ensures purged + |tombs| == |old(tombs)|
    {
      if c.tombstoneDays <= 0 { return 0; }
      var minAcked, deviceCount := MinAckedSequence();
      if deviceCount == 0 { return 0; }
      purged := PurgeConfirmed(now, minAcked);
    }

    /** The pass over the deletions, when this is what every active device has confirmed. */
    method PurgeConfirmed(now: int, minAcked: int) returns (purged: nat)
      requires forall n :: n <= minAcked <==> AllAcked(State(), n)
      modifies this`tombs
      ensures tombs == map f | f in old(tombs) && !Purgeable(old(State()), old(tombs)[f], now) :: old(tombs)[f]
      ensures purged + |tombs| == |old(tombs)|
    {
      purged := 0;
      ghost var s := State();
      var rest := tombs.Keys;
      while rest != {}
        invariant rest <= tombs.Keys <= s.tombs.Keys && purged + |tombs| == |s.tombs|
        invariant tombs == map f | f in s.tombs && (f in rest || !Purgeable(s, s.tombs[f], now)) :: s.tombs[f]
        decreases rest
      {
        var f :| f in rest;
        var t := tombs[f];
        rest := rest - {f};
        if t.retainUntil != 0 && now >= t.retainUntil && t.deletionSequence != 0 && t.deletionSequence <= minAcked {
          tombs := tombs - {f};
          purged := purged + 1;
        }
      }
    }

    /** The device's sequence only ever rises, to at least this one; no other device is touched,
        and what every active device had confirmed stays confirmed. */
    method AckSequence(deviceId: string, sequence: int)
      modifies this`devices
      ensures State() == AckNext(old(State()), deviceId, sequence)
      ensures devices.Keys == old(devices).Keys && forall d :: d in devices && d != deviceId ==>
              devices[d] == old(devices)[d]
      ensures deviceId in devices ==>
                devices[deviceId].revoked == old(devices)[deviceId].revoked &&
                devices[deviceId].acked >= old(devices)[deviceId].acked && devices[deviceId].acked >= sequence &&
                (devices[deviceId].acked == old(devices)[deviceId].acked || devices[deviceId].acked == sequence)
      ensures forall n :: old(AllAcked(State(), n)) ==> AllAcked(State(), n)
    {
      if deviceId in devices && devices[deviceId].acked < sequence {
        devices := devices[deviceId := devices[deviceId].(acked := sequence)];
      }
    }

    /** The last sequence to give up, by age and by count; 0 for none. */
    method DeleteUpTo(now: int) returns (upTo: int)
      ensures upTo == TrimPoint(c, State(), now)
    {
      upTo := 0;
      if c.changesDays > 0 { upTo := LastBefore(log, now - c.changesDays * 86400); }
      LastBeforeIsInLog(log, now - c.changesDays * 86400);
      if c.changesMax > 0 && |log| > c.changesMax {
        var last := log[|log| - 1 - c.changesMax].sequence;
        if last > upTo { upTo := last; }
      }
    }

    /** Trim the change log, and move the watermark with it. */
    method MaintainChanges(now: int) returns (removed: nat)
      requires Valid()
      modifies this`log, this`repo
      ensures Valid()
      ensures State() == TrimLogNext(c, old(State()), now)
      ensures c.changesMax > 0 ==> |log| <= c.changesMax
      ensures removed == |old(log)| - |log|
    {
      ghost var s := State();
      TrimLogIsQuiet(c, s, now);
      if c.changesMax > 0 { TrimLogLeaves(c, s, now); }
      EffectKeepsSound(s, TrimLogNext(c, s, now), Quiet);
      removed := TrimTx(now);
    }

    method TrimTx(now: int) returns (removed: nat)
      modifies this`log, this`repo
      ensures State() == TrimLogNext(c, old(State()), now)
      ensures removed == |old(log)| - |log|
    {
      removed := 0;
      if c.changesDays <= 0 && c.changesMax <= 0 { return; }
      var upTo := DeleteUpTo(now);
      if upTo == 0 { return; }
      var before := |log|;
      AfterIsShorter(log, upTo);
      log := After(log, upTo);
      if repo.minRetained < upTo { repo := repo.(minRetained := upTo); }
      removed := before - |log|;
    }

    /** The object a name stands for: the live one, else the one last deleted under the name, else
        the one whose id it is. */
    method FileIdFor(name: string) returns (r: Option<string>)
      requires Valid()
      ensures r.Some? ==> StandsFor(State(), name, r.value)
      ensures r.None? <==> UnknownName(State(), name)
    {
      var cur := GetHeadByPseudonym(name);
      NamedIs(heads, name);
      if cur.Some? {
        assert StandsFor(State(), name, cur.value.fileId);
        return Some(cur.value.fileId);
      }
      var t := FindTombstone(name, "");
      if t.Some? {
        assert StandsFor(State(), name, t.value.fileId);
        return Some(t.value.fileId);
      }
      assert forall g :: g in tombs ==> !Bars(tombs[g], name, "");
      if IsHex32(name) && name in ledger {
        assert StandsFor(State(), name, name);
        return Some(name);
      }
      return None;
    }

    /** Drop an object's versions below a revision, all but its newest. */
    method PruneHistoryBefore(name: string, before: int) returns (r: Option<Error>, removed: nat, ghost fileId: string)
      requires Valid()
      modifies this`versions, store`files
      ensures r == if !o.validPath(name) then Some(InvalidPath)
              else if UnknownName(old(State()), name) then Some(NotFound) else None
      ensures r.Some? ==> State() == old(State()) && removed == 0
      ensures r.None? ==> StandsFor(old(State()), name, fileId) && removed == |Below(old(versions), fileId, before)|
      ensures r.None? ==> State() == PruneNext(old(State()), Below(old(versions), fileId, before))
    {
      fileId, removed := "", 0;
      if !o.validPath(name) { return Some(InvalidPath), 0, ""; }
      var found := FileIdFor(name);
      if found.None? { return Some(NotFound), 0, ""; }
      fileId := found.value;
      removed := PruneObjectBefore(found.value, before);
      r := None;
    }

    method PruneObjectBefore(fileId: string, before: int) returns (removed: nat)
      modifies this`versions, store`files
      ensures State() == PruneNext(old(State()), Below(old(versions), fileId, before)) &&
              removed == |Below(old(versions), fileId, before)|
    {
      ghost var s := State();
      var pruned;
      pruned, removed := DropBelowTx(fileId, before);
      CollectsExactly(s, Below(s.versions, fileId, before), pruned);
      GcBlobs(pruned);
    }

    method DropBelowTx(fileId: string, before: int) returns (pruned: seq<string>, removed: nat)
      modifies this`versions
      ensures Dropped(old(versions), Below(old(versions), fileId, before), versions, pruned)
      ensures removed == |Below(old(versions), fileId, before)|
    {
      var keys := ListVersions(fileId);
      ghost var was, gone: set<VersionKey> := versions, {};
      pruned, removed := [], 0;
      for i := 0 to |keys|
        invariant removed == |gone|
        invariant gone == set j | 1 <= j < i && keys[j].1 < before :: keys[j]
        invariant Dropped(was, gone, versions, pruned)
      {
        assert keys[i] in keys && keys[i] !in gone;
        if i > 0 && keys[i].1 < before {
          pruned := DropRow(keys[i], pruned, was, gone);
          gone := gone + {keys[i]};
          removed := removed + 1;
        }
      }
      FirstIsNewest(was, fileId, keys);
      assert gone == Below(was, fileId, before);
    }

    // ---------- history retention and budget ----------

    /** Apply retention to every object with history. */
    method MaintainHistoryRetention(now: int)
      modifies this`versions, store`files
      ensures State() == if c.historyEnabled then PruneNext(old(State()), Due(o, c, old(State()), now))
              else old(State())
    {
      if !c.historyEnabled { return; }
      var fileIds := set k | k in versions :: k.0;
      ghost var s, done: set<string> := State(), {};
      NothingDropped(s);
      var rest := fileIds;
      while rest != {}
        invariant rest !! done && rest + done == fileIds
        invariant State() == DropVersions(s, DueAmong(o, c, s, now, done), true)
        decreases rest
      {
        var fileId :| fileId in rest;
        RetainOne(now, fileId, s, done);
        done, rest := done + {fileId}, rest - {fileId};
      }
      assert done == fileIds;
      DueAmongAll(o, c, s, now, done);
    }

    /** Retention of one object after others, in a transaction of its own. */
    method RetainOne(now: int, fileId: string, ghost s: Store, ghost done: set<string>)
      requires fileId !in done && State() == DropVersions(s, DueAmong(o, c, s, now, done), true)
      modifies this`versions, store`files
      ensures State() == DropVersions(s, DueAmong(o, c, s, now, done + {fileId}), true)
    {
      var pseudonym := if fileId in heads then heads[fileId].pseudonym else fileId;
      var (days, max) := RetentionFor(o, c, repo.meta, pseudonym);
      DueOneMore(o, c, s, now, done, fileId);
      PruneAndCollect(fileId, now, days, max, true);
    }

    /** Bytes of history that is not an object's newest version. */
    method NonHeadHistoryBytes() returns (total: int)
      ensures total == Weight(versions, NonNewest(versions))
    {
      total := 0;
      var all := NonNewest(versions);
      var rest := all;
      while rest != {}
        invariant rest <= all && total == Weight(versions, all - rest)
        decreases rest
      {
        var k :| k in rest;
        WeightWithout(versions, all - rest + {k}, k);
        assert all - rest + {k} - {k} == all - rest && all - (rest - {k}) == all - rest + {k};
        total := total + versions[k].size;
        rest := rest - {k};
      }
      assert all - rest == all;
    }

    /** The oldest such versions, at most `limit`, oldest first.  Equal ages come in any order. */
    method OldestNonHeadVersions(limit: nat) returns (keys: seq<VersionKey>)
      ensures OldestFirst(versions, keys) && Elements(keys) <= NonNewest(versions)
      ensures |keys| <= limit && (|keys| < limit ==> Elements(keys) == NonNewest(versions))
    {
      keys := [];
      var rest := NonNewest(versions);
      while rest != {} && |keys| < limit
        invariant rest == NonNewest(versions) - Elements(keys) && Elements(keys) <= NonNewest(versions) &&
                  |keys| <= limit
        invariant OldestFirst(versions, keys)
        decreases rest
      {
        var k := OldestAmong(rest);
        assert forall i :: 0 <= i <= |keys| ==> (keys + [k])[..i] == keys[..i];
        keys := keys + [k];
        rest := rest - {k};
      }
      assert forall k :: k in NonNewest(versions) ==> k in rest || k in Elements(keys);
    }

    method OldestAmong(candidates: set<VersionKey>) returns (best: VersionKey)
      requires candidates != {} && candidates <= versions.Keys
      ensures OldestOf(versions, candidates, best)
    {
      best :| best in candidates;
      var rest := candidates - {best};
      while rest != {}
        invariant best in candidates && rest <= candidates
        invariant forall k :: k in candidates - rest ==> versions[best].createdAt <= versions[k].createdAt
        decreases rest
      {
        var k :| k in rest;
        if versions[k].createdAt < versions[best].createdAt { best := k; }
        rest := rest - {k};
      }
    }

    /** One batch: victims go in order until the rest fits. */
    method DropVictimsTx(victims: seq<VersionKey>, total: int) returns (n: nat, blobs: seq<string>)
      requires victims != [] && OldestFirst(versions, victims) && Elements(victims) <= NonNewest(versions)
      requires total == Weight(versions, NonNewest(versions)) > c.historyMaxBytes
      modifies this`versions
      ensures 0 < n <= |victims|
      ensures Dropped(old(versions), Elements(victims[..n]), versions, blobs)
      ensures AllNeeded(old(versions), victims[..n], c.historyMaxBytes)
      ensures n == |victims| || LeftOver(old(versions), victims[..n]) <= c.historyMaxBytes
    {
      ghost var was := versions;
      blobs, n := [], 0;
      var freed := 0;
      NoneGoneYet(was, victims, c.historyMaxBytes);
      while n < |victims|
        invariant 0 <= n <= |victims| && Dropped(was, Elements(victims[..n]), versions, blobs)
        invariant LeftOver(was, victims[..n]) == total - freed > c.historyMaxBytes
        invariant AllNeeded(was, victims[..n], c.historyMaxBytes)
      {
        var k := victims[n];
        VictimIsThere(was, victims, n);
        NeededOneMore(was, victims, n, c.historyMaxBytes);
        freed := freed + versions[k].size;
        blobs := DropRow(k, blobs, was, Elements(victims[..n]));
        n := n + 1;
        if total - freed <= c.historyMaxBytes { break; }
      }
    }

    /** A batch, and then the blobs that only its versions used. */
    method DropVictims(victims: seq<VersionKey>, total: int) returns (n: nat)
      requires victims != [] && OldestFirst(versions, victims) && Elements(victims) <= NonNewest(versions)
      requires total == Weight(versions, NonNewest(versions)) > c.historyMaxBytes
      modifies this`versions, store`files
      ensures 0 < n <= |victims|
      ensures State() == DropVersions(old(State()), Elements(victims[..n]), true)
      ensures AllNeeded(old(versions), victims[..n], c.historyMaxBytes)
    {
      ghost var before := State();
      var blobs;
      n, blobs := DropVictimsTx(victims, total);
      CollectsExactly(before, Elements(victims[..n]), blobs);
      GcBlobs(blobs);
    }

    /** Give up the oldest history until what is left fits the byte budget.  An object's newest
        version never counts and never goes. */
    method MaintainHistoryBudget() returns (pruned: nat, ghost gone: seq<VersionKey>)
      modifies this`versions, store`files
      ensures pruned == |gone| && OldestFirst(old(versions), gone) && Elements(gone) <= NonNewest(old(versions))
      ensures State() == PruneNext(old(State()), Elements(gone))
      ensures AllNeeded(old(versions), gone, c.historyMaxBytes)
      ensures c.historyEnabled && c.historyMaxBytes > 0 ==> Weight(versions, NonNewest(versions)) <= c.historyMaxBytes
      ensures !c.historyEnabled || c.historyMaxBytes <= 0 ==> gone == []
      ensures forall k :: k in old(versions) && Newer(old(versions), k) == {} ==> k in versions
    {
      ghost var s := State();
      pruned, gone := 0, [];
      NothingDropped(s);
      DroppingKeepsNewest(s.versions, {});
      if !c.historyEnabled || c.historyMaxBytes <= 0 { return; }
      while true
        invariant pruned == |gone| && OldestFirst(s.versions, gone) && Elements(gone) <= NonNewest(s.versions)
        invariant AllNeeded(s.versions, gone, c.historyMaxBytes)
        invariant State() == DropVersions(s, Elements(gone), true)
        decreases NonNewest(versions)
      {
        DroppingKeepsNewest(s.versions, Elements(gone));
        assert versions == Without(s.versions, Elements(gone));
        var total := NonHeadHistoryBytes();
        if total <= c.historyMaxBytes { return; }
        var victims := OldestNonHeadVersions(32);
        if victims == [] { return; }
        var n := DropVictims(victims, total);
        BatchGoes(s, gone, victims, n, c.historyMaxBytes);
        pruned := pruned + n;
        gone := gone + victims[..n];
      }
    }
  }

  /** The result an earlier request had: what its change published. */
  ghost predicate IsSavedResult(log: seq<Change>, f: string, op: string, answer: Answer) {
    op != "" &&
    exists i :: 0 <= i < |log| && log[i].fileId == f && log[i].operationId == op &&
      answer == Ok(f, log[i].revision, log[i].sequence, log[i].metaGeneration)
  }

  /** Of an upload in effect the client is told the state of the object, where it has the content
      already, and else the result the operation had. */
  ghost predicate TellsOfContent(o: Oracle, s: Store, h: Head, q: UploadRequest, answer: Answer) {
    if h.contentHash == o.hash(q.body) then answer == Ok(h.fileId, h.revision, s.repo.head, h.metaGeneration)
    else IsSavedResult(s.log, h.fileId, q.client.operationId, answer)
  }

  ghost predicate TellsOfUpload(o: Oracle, s: Store, q: UploadRequest, answer: Answer) {
    exists f :: f in s.heads && s.heads[f].pseudonym == q.path && TellsOfContent(o, s, s.heads[f], q, answer)
  }

  /** Of a delete in effect it is told of the last deletion that goes by the name. */
  ghost predicate TellsOfDeletion(tombs: map<string, Tombstone>, name: string, answer: Answer) {
    exists f :: f in tombs && IsLastOf(tombs, name, tombs[f]) &&
      answer == Ok(tombs[f].fileId, tombs[f].deletionRevision, tombs[f].deletionSequence, tombs[f].metaGeneration)
  }

  ghost predicate IsLastOf(tombs: map<string, Tombstone>, name: string, t: Tombstone) {
    t.lastPseudonym == name &&
    forall g :: g in tombs && tombs[g].lastPseudonym == name ==> tombs[g].deletionRevision <= t.deletionRevision
  }

  ghost predicate TellsOfRename(s: Store, q: RenameRequest, answer: Answer) {
    exists f :: f in s.heads && s.heads[f].pseudonym == q.from &&
      IsSavedResult(s.log, s.heads[f].fileId, q.client.operationId, answer)
  }

  /** Of a restore in effect it is told the result it had, or else the state of the live object. */
  ghost predicate TellsOfRestore(s: Store, q: RestoreRequest, answer: Answer) {
    if Logged(s.log, q.fileId, q.client.operationId)
    then IsSavedResult(s.log, q.fileId, q.client.operationId, answer)
    else q.fileId in s.heads && answer == Ok(q.fileId, s.heads[q.fileId].revision, 0, s.heads[q.fileId].metaGeneration)
  }

  /** The policy for one object, and all that retention gives up. */
  function Policy(o: Oracle, c: Config, s: Store, fileId: string): (int, int) {
    RetentionFor(o, c, s.repo.meta, if fileId in s.heads then s.heads[fileId].pseudonym else fileId)
  }

  function Due(o: Oracle, c: Config, s: Store, now: int): set<VersionKey> {
    set k | k in s.versions && k in Expired(s.versions, k.0, now, Policy(o, c, s, k.0).0, Policy(o, c, s, k.0).1)
  }

  function DueAmong(o: Oracle, c: Config, s: Store, now: int, fileIds: set<string>): set<VersionKey> {
    set k | k in Due(o, c, s, now) && k.0 in fileIds
  }

  /** What retention gives up of one object does not depend on the others having been pruned. */
  lemma DueOneMore(o: Oracle, c: Config, s: Store, now: int, seen: set<string>, fileId: string)
    requires fileId !in seen
    ensures var s1 := DropVersions(s, DueAmong(o, c, s, now, seen), true);
            var (days, max) := Policy(o, c, s, fileId);
            DropVersions(s1, Expired(s1.versions, fileId, now, days, max), true) ==
              DropVersions(s, DueAmong(o, c, s, now, seen + {fileId}), true)
  {
    var gone := DueAmong(o, c, s, now, seen);
    var s1 := DropVersions(s, gone, true);
    var (days, max) := Policy(o, c, s, fileId);
    OthersDoNotMatter(s.versions, gone, fileId, now, days, max);
    assert s1.versions == Without(s.versions, gone);
    assert gone + Expired(s.versions, fileId, now, days, max) == DueAmong(o, c, s, now, seen + {fileId});
    PruningComposes(s, gone, Expired(s1.versions, fileId, now, days, max));
  }

  lemma OthersDoNotMatter(versions: map<VersionKey, Version>, gone: set<VersionKey>, fileId: string, now: int,
          days: int, max: int)
    requires forall k :: k in gone ==> k.0 != fileId
    ensures Expired(Without(versions, gone), fileId, now, days, max) == Expired(versions, fileId, now, days, max)
  {
    var rest := Without(versions, gone);
    forall k | k in versions && k.0 == fileId ensures k in rest && Newer(rest, k) == Newer(versions, k) {
    }
  }

  lemma DueAmongAll(o: Oracle, c: Config, s: Store, now: int, fileIds: set<string>)
    requires fileIds == set k | k in s.versions :: k.0
    ensures DueAmong(o, c, s, now, fileIds) == Due(o, c, s, now)
    ensures DropVersions(s, Due(o, c, s, now), true) == PruneNext(s, Due(o, c, s, now))
  {
    assert forall k :: k in s.versions ==> k.0 in fileIds;
  }

  lemma NothingDropped(s: Store)
    ensures DropVersions(s, {}, true) == s
    ensures forall keys: set<VersionKey> :: keys == {} ==> DropVersions(s, keys, true) == s
  {
    var s' := DropVersions(s, {}, true);
    assert s'.versions == s.versions && s'.blobs == s.blobs;
  }

  lemma NoneGoneYet(was: map<VersionKey, Version>, victims: seq<VersionKey>, max: int)
    ensures Elements(victims[..0]) == {} && LeftOver(was, victims[..0]) == Weight(was, NonNewest(was))
    ensures AllNeeded(was, victims[..0], max)
  {
    assert NonNewest(was) - Elements(victims[..0]) == NonNewest(was);
  }

  lemma VictimIsThere(was: map<VersionKey, Version>, victims: seq<VersionKey>, n: nat)
    requires OldestFirst(was, victims) && n < |victims|
    ensures victims[n] in was && victims[n] !in Elements(victims[..n])
    ensures Elements(victims[..n + 1]) == Elements(victims[..n]) + {victims[n]}
    ensures LeftOver(was, victims[..n]) == was[victims[n]].size + LeftOver(was, victims[..n + 1])
  {
    var left := NonNewest(was) - Elements(victims[..n]);
    assert OldestOf(was, left, victims[n]);
    assert victims[..n + 1] == victims[..n] + [victims[n]];
    assert left - {victims[n]} == NonNewest(was) - Elements(victims[..n + 1]);
    WeightWithout(was, left, victims[n]);
  }

  lemma NeededOneMore(was: map<VersionKey, Version>, victims: seq<VersionKey>, n: nat, max: int)
    requires n < |victims| && AllNeeded(was, victims[..n], max) && LeftOver(was, victims[..n]) > max
    ensures AllNeeded(was, victims[..n + 1], max)
  {
    var more := victims[..n + 1];
    forall j | 0 <= j < n + 1 ensures LeftOver(was, more[..j]) > max {
      assert more[..j] == victims[..j];
      if j < n { assert victims[..n][..j] == victims[..j]; }
    }
  }

  /** A batch carries on where the batches before it stopped. */
  lemma BatchGoes(s: Store, gone: seq<VersionKey>, victims: seq<VersionKey>, n: nat, max: int)
    requires Elements(gone) <= NonNewest(s.versions) && OldestFirst(s.versions, gone) &&
             AllNeeded(s.versions, gone, max)
    requires 0 < n <= |victims| && OldestFirst(Without(s.versions, Elements(gone)), victims)
    requires AllNeeded(Without(s.versions, Elements(gone)), victims[..n], max)
    ensures var gone' := gone + victims[..n];
            OldestFirst(s.versions, gone') && AllNeeded(s.versions, gone', max) &&
              Elements(gone') <= NonNewest(s.versions) &&
            DropVersions(DropVersions(s, Elements(gone), true), Elements(victims[..n]), true) ==
              DropVersions(s, Elements(gone'), true) &&
            NonNewest(Without(s.versions, Elements(gone'))) < NonNewest(Without(s.versions, Elements(gone)))
  {
    var rest := Without(s.versions, Elements(gone));
    assert OldestFirst(rest, victims[..n]) by {
      assert forall i :: 0 <= i < n ==> victims[..n][..i] == victims[..i];
    }
    BatchesAppend(s.versions, gone, victims[..n], max);
    PruningComposes(s, Elements(gone), Elements(victims[..n]));
    assert Elements(gone + victims[..n]) == Elements(gone) + Elements(victims[..n]);
    DroppingKeepsNewest(s.versions, Elements(gone));
    DroppingKeepsNewest(s.versions, Elements(gone + victims[..n]));
    assert OldestOf(rest, NonNewest(rest) - Elements(victims[..0]), victims[0]);
    assert victims[..n][0] == victims[0];
  }

  /** These rows went, and their blobs are for collection. */
  ghost predicate Dropped(was: map<VersionKey, Version>, gone: set<VersionKey>, versions: map<VersionKey, Version>,
          pruned: seq<string>)
  {
    gone <= was.Keys && versions == Without(was, gone) &&
    forall b :: b in pruned <==> b != "" && exists k :: k in gone && was[k].blobId == b
  }

  /** The object a name stands for, live, deleted or by its id, in this order. */
  ghost predicate StandsFor(s: Store, name: string, f: string) {
    if exists g :: g in s.heads && s.heads[g].pseudonym == name then f in s.heads && s.heads[f].pseudonym == name
    else if exists g :: g in s.tombs && s.tombs[g].lastPseudonym == name then LastDeletedAs(s.tombs, name, f)
    else IsHex32(name) && name in s.ledger && f == name
  }

  ghost predicate UnknownName(s: Store, name: string) {
    forall f :: !StandsFor(s, name, f)
  }

  ghost predicate LastDeletedAs(tombs: map<string, Tombstone>, name: string, f: string) {
    f in tombs && tombs[f].lastPseudonym == name &&
    forall g :: g in tombs && tombs[g].lastPseudonym == name ==> tombs[g].deletionRevision <= tombs[f].deletionRevision
  }

  /** An object's versions below a revision, but for its newest. */
  function Below(versions: map<VersionKey, Version>, fileId: string, before: int): set<VersionKey> {
    set k | k in versions && k.0 == fileId && k.1 < before && Newer(versions, k) != {}
  }

  /** The journal on its way from `was` to having all of `todo`. */
  ghost predicate Between(was: map<JournalKey, Stage>, todo: set<JournalKey>, journal: map<JournalKey, Stage>) {
    (forall k :: k in was ==> k in journal && journal[k] == was[k]) &&
    (forall k :: k in journal && k !in was ==> k in todo && journal[k] == Pending)
  }

  lemma AllAdded(was: map<JournalKey, Stage>, todo: set<JournalKey>, journal: map<JournalKey, Stage>)
    requires Between(was, todo, journal) && forall k :: k in todo ==> k in journal
    ensures journal == AddPending(was, todo)
  {
  }

  lemma FinishedMeansNone(s: Store)
    ensures |Unfinished(s)| == 0 <==> JournalFinished(s)
  {
    if JournalFinished(s) {
      assert Unfinished(s) == {};
    } else {
      var k :| k in s.journal && k.migrationId == s.repo.migration.id && s.journal[k] != Done &&
        s.journal[k] != Skipped;
      assert k in Unfinished(s);
    }
  }

  lemma LogExtends(s: Store, change: Change)
    ensures LogDense(s) ==>
              LogDense(Log(s, change)) &&
              After(Log(s, change).log, s.repo.head) == [change.(sequence := s.repo.head + 1)]
  {
    if LogDense(s) { AfterDense(Log(s, change).log, s.repo.minRetained, s.repo.head); }
  }

  lemma {:induction false} AfterSnoc(log: seq<Change>, change: Change, since: int)
    ensures After(log + [change], since) == After(log, since) + if change.sequence > since then [change] else []
  {
    if log != [] {
      AfterSnoc(log[1..], change, since);
      assert (log + [change])[1..] == log[1..] + [change];
    }
  }

  lemma {:induction false} AfterIsShorter(log: seq<Change>, to: int)
    ensures |After(log, to)| <= |log|
  {
    if log != [] { AfterIsShorter(log[1..], to); }
  }

  /** Of a list newest first, only the first has nothing newer. */
  lemma FirstIsNewest(versions: map<VersionKey, Version>, fileId: string, keys: seq<VersionKey>)
    requires forall k :: k in keys <==> k in versions && k.0 == fileId
    requires forall i, j :: 0 <= i < j < |keys| ==> keys[i].1 > keys[j].1
    ensures forall i :: 0 <= i < |keys| ==> (i == 0 <==> Newer(versions, keys[i]) == {})
  {
    forall i | 0 <= i < |keys| ensures i == 0 <==> Newer(versions, keys[i]) == {} {
      RankIs(versions, fileId, keys, i);
    }
  }

  function AddChecked(s: Store, failures: seq<Failure>, check: Check, namedShares: nat, sentinels: nat): seq<Failure> {
    Add(failures, check, CountOf(s, check, namedShares, sentinels))
  }

  function TableReport(s: Store, found: seq<Failure>, namedShares: nat, sentinels: nat): seq<Failure> {
    var f1 := AddChecked(s, found, OrphanHistoryCheck, namedShares, sentinels);
    var f2 := AddChecked(s, f1, TombstoneCheck, namedShares, sentinels);
    var f3 := AddChecked(s, f2, StaleChangeCheck, namedShares, sentinels);
    var f4 := AddChecked(s, f3, ShareNameCheck, namedShares, sentinels);
    var f5 := AddChecked(s, f4, SentinelCheck, namedShares, sentinels);
    AddChecked(s, f5, EpochCheck, namedShares, sentinels)
  }

  function HeadReport(s: Store, namedShares: nat, sentinels: nat): seq<Failure> {
    var f1 := AddChecked(s, [], EnvelopeCheck, namedShares, sentinels);
    var f2 := AddChecked(s, f1, KeyEpochCheck, namedShares, sentinels);
    var f3 := AddChecked(s, f2, MetadataCheck, namedShares, sentinels);
    var f4 := AddChecked(s, f3, FileIdCheck, namedShares, sentinels);
    AddChecked(s, f4, GenerationCheck, namedShares, sentinels)
  }

  /** The checks in the order they are made. */
  function Report(s: Store, namedShares: nat, sentinels: nat): seq<Failure> {
    TableReport(s, HeadReport(s, namedShares, sentinels), namedShares, sentinels)
  }

  predicate Reported(s: Store, f: Failure, namedShares: nat, sentinels: nat) {
    f.count > 0 && f.count == CountOf(s, f.check, namedShares, sentinels)
  }

  lemma HeadReportIsExact(s: Store, namedShares: nat, sentinels: nat)
    ensures forall f :: f in HeadReport(s, namedShares, sentinels) <==>
            OnHeads(f.check) && Reported(s, f, namedShares, sentinels)
  {
  }

  lemma TableReportIsExact(s: Store, found: seq<Failure>, namedShares: nat, sentinels: nat)
    ensures forall f :: f in TableReport(s, found, namedShares, sentinels) <==>
            f in found || (!OnHeads(f.check) && Reported(s, f, namedShares, sentinels))
  {
  }

  lemma ReportIsExact(s: Store, namedShares: nat, sentinels: nat)
    ensures forall f :: f in Report(s, namedShares, sentinels) <==>
            f.count > 0 && f.count == CountOf(s, f.check, namedShares, sentinels)
  {
    HeadReportIsExact(s, namedShares, sentinels);
    TableReportIsExact(s, HeadReport(s, namedShares, sentinels), namedShares, sentinels);
  }

  function One(s: Store, check: Check, f: string): nat
    requires f in s.heads
  {
    if Offends(s, check, f) then 1 else 0
  }

  lemma OneMore(s: Store, seen: set<string>, f: string)
    requires f in s.heads && f !in seen
    ensures forall check :: |Offenders(s, check, seen + {f})| == |Offenders(s, check, seen)| + One(s, check, f)
  {
    forall check ensures |Offenders(s, check, seen + {f})| == |Offenders(s, check, seen)| + One(s, check, f) {
      assert Offenders(s, check, seen + {f}) == Offenders(s, check, seen) + if Offends(s, check, f) then {f} else {};
    }
  }

  /** The validator passes exactly when no check has an offender. */
  lemma ValidatesIs(s: Store, namedShares: nat, sentinels: nat)
    ensures Validates(s, namedShares, sentinels) <==> forall check :: CountOf(s, check, namedShares, sentinels) == 0
  {
    HeadsReadyIs(s);
    TablesReadyIs(s);
    assert CountOf(s, OrphanHistoryCheck, namedShares, sentinels) == |Orphans(s.versions, s.ledger)|;
    assert CountOf(s, TombstoneCheck, namedShares, sentinels) == |PlainTombstones(s.tombs)|;
    assert CountOf(s, StaleChangeCheck, namedShares, sentinels) == |StaleChanges(s.log, s.repo.migration.cutoff)|;
    assert CountOf(s, EpochCheck, namedShares, sentinels) == 0 <==> EpochReady(s.repo);
    assert CountOf(s, ShareNameCheck, namedShares, sentinels) == namedShares &&
           CountOf(s, SentinelCheck, namedShares, sentinels) == sentinels;
    assert forall check :: OnHeads(check) ==>
           CountOf(s, check, namedShares, sentinels) == |Offenders(s, check, s.heads.Keys)|;
  }

  lemma TablesReadyIs(s: Store)
    ensures HistoryKnown(s) <==> |Orphans(s.versions, s.ledger)| == 0
    ensures TombstonesPrivate(s) <==> |PlainTombstones(s.tombs)| == 0
    ensures NoStaleChange(s) <==> |StaleChanges(s.log, s.repo.migration.cutoff)| == 0
  {
    assert HistoryKnown(s) <==> Orphans(s.versions, s.ledger) == {} by {
      assert forall k :: k in Orphans(s.versions, s.ledger) <==> k in s.versions && k.0 !in s.ledger;
    }
    assert TombstonesPrivate(s) <==> PlainTombstones(s.tombs) == {} by {
      assert forall f :: f in PlainTombstones(s.tombs) <==>
             f in s.tombs && s.tombs[f].lastPseudonym != s.tombs[f].fileId;
    }
    assert NoStaleChange(s) <==> StaleChanges(s.log, s.repo.migration.cutoff) == {} by {
      assert forall i :: i in StaleChanges(s.log, s.repo.migration.cutoff) <==>
               0 <= i < |s.log| && s.log[i].sequence > s.repo.migration.cutoff && s.log[i].pseudonym != s.log[i].fileId;
    }
  }

  predicate OnHeads(check: Check) {
    check.EnvelopeCheck? || check.KeyEpochCheck? || check.MetadataCheck? || check.FileIdCheck? || check.GenerationCheck?
  }

  lemma HeadsReadyIs(s: Store)
    ensures (forall f :: f in s.heads ==> HeadReady(s, f) && GenerationMonotonic(s, f)) <==>
              forall check :: OnHeads(check) ==> |Offenders(s, check, s.heads.Keys)| == 0
  {
    if forall check :: OnHeads(check) ==> |Offenders(s, check, s.heads.Keys)| == 0 {
      forall f | f in s.heads ensures HeadReady(s, f) && GenerationMonotonic(s, f) {
        assert forall check :: OnHeads(check) && Offends(s, check, f) ==> f in Offenders(s, check, s.heads.Keys);
        assert !Offends(s, EnvelopeCheck, f) && !Offends(s, KeyEpochCheck, f) && !Offends(s, MetadataCheck, f) &&
               !Offends(s, FileIdCheck, f) && !Offends(s, GenerationCheck, f);
      }
    }
    if forall f :: f in s.heads ==> HeadReady(s, f) && GenerationMonotonic(s, f) {
      assert forall check :: OnHeads(check) ==> Offenders(s, check, s.heads.Keys) == {};
    }
  }

  /** A report that lists every check with offenders is empty exactly when the validator passes. */
  lemma ReportedExactly(s: Store, failures: seq<Failure>, namedShares: nat, sentinels: nat)
    requires forall f :: f in failures <==> f.count > 0 && f.count == CountOf(s, f.check, namedShares, sentinels)
    ensures failures == [] <==> Validates(s, namedShares, sentinels)
  {
    ValidatesIs(s, namedShares, sentinels);
    if failures != [] {
      assert failures[0] in failures;
    } else {
      forall check ensures CountOf(s, check, namedShares, sentinels) == 0 {
        assert Failure(check, CountOf(s, check, namedShares, sentinels)) !in failures;
      }
    }
  }

  /** The blobs left when those given up and not referred to are collected. */
  ghost function Kept(s: Store, pruned: seq<string>): map<string, bytes> {
    map b | b in s.blobs && !(b in pruned && b != "" && !Referenced(s.heads, s.versions, b)) :: s.blobs[b]
  }

  /** The commit is the write and its pruning; only what is collected depends on the fault. */
  lemma CommitIs(o: Oracle, c: Config, s: Store, h: Head, q: UploadRequest, q': UploadRequest)
    requires q' == q.(quarantineFull := q'.quarantineFull)
    ensures UploadCommitted(o, c, s, h, q') ==
            UploadPruned(o, c, UploadWritten(c, s, h, q), h, q.now, q.fault != AfterCommit)
    ensures UploadWritten(c, s, h, q).repo.head == s.repo.head + 1
  {
  }

  lemma CollectsExactly(s: Store, gone: set<VersionKey>, pruned: seq<string>)
    requires Dropped(s.versions, gone, Without(s.versions, gone), pruned)
    ensures var s' := DropVersions(s, gone, true);
            s'.versions == Without(s.versions, gone) && s' == s.(versions := s'.versions, blobs := s'.blobs) &&
            s'.blobs == map b | b in s.blobs &&
              !(b in pruned && b != "" && !Referenced(s.heads, s'.versions, b)) :: s.blobs[b]
  {
  }

  lemma DeleteKeepsSound(o: Oracle, c: Config, s: Store, q: DeleteRequest)
    requires Sound(s)
    ensures Sound(DeleteNext(o, c, s, q))
  {
    var e := DeleteEffect(o, c, s, q);
    EffectKeepsSound(s, DeleteNext(o, c, s, q), e);
  }

  lemma UploadKeepsSound(o: Oracle, c: Config, s: Store, q: UploadRequest)
    requires Sound(s)
    ensures Sound(UploadNext(o, c, s, q))
  {
    var e := UploadEffect(o, c, s, q);
    EffectKeepsSound(s, UploadNext(o, c, s, q), e);
  }

  /** The decision does not depend on the state of the quarantine. */
  lemma SameVerdict(o: Oracle, s: Store, q: UploadRequest, q': UploadRequest)
    requires q' == q.(quarantineFull := q'.quarantineFull)
    ensures UploadVerdict(o, s, q') == UploadVerdict(o, s, q)
  {
  }

  /** In a list of an object's versions, newest first, a version has as many newer ones as
      there are before it. */
  lemma RankIs(versions: map<VersionKey, Version>, fileId: string, keys: seq<VersionKey>, i: nat)
    requires forall k :: k in keys <==> k in versions && k.0 == fileId
    requires forall i, j :: 0 <= i < j < |keys| ==> keys[i].1 > keys[j].1
    requires i < |keys|
    ensures |Newer(versions, keys[i])| == i
  {
    Distinct(keys, i);
    assert keys[i] in keys;
    assert Newer(versions, keys[i]) == set j | 0 <= j < i :: keys[j];
  }

  lemma ExpiredIs(versions: map<VersionKey, Version>, fileId: string, now: int, days: int, max: int,
          keys: seq<VersionKey>, i: nat)
    requires forall k :: k in keys <==> k in versions && k.0 == fileId
    requires forall i, j :: 0 <= i < j < |keys| ==> keys[i].1 > keys[j].1
    requires i < |keys|
    ensures keys[i] in Expired(versions, fileId, now, days, max) <==>
              i > 0 && ((max > 0 && i >= max) ||
                (days > 0 && now - days * 86400 > 0 && versions[keys[i]].createdAt < now - days * 86400))
  {
    RankIs(versions, fileId, keys, i);
    assert keys[i] in keys;
  }

  lemma {:induction false} Distinct(keys: seq<VersionKey>, n: nat)
    requires forall i, j :: 0 <= i < j < |keys| ==> keys[i].1 > keys[j].1
    requires n <= |keys|
    ensures |set j | 0 <= j < n :: keys[j]| == n
  {
    if n > 0 {
      Distinct(keys, n - 1);
      assert (set j | 0 <= j < n :: keys[j]) == (set j | 0 <= j < n - 1 :: keys[j]) + {keys[n - 1]};
    }
  }
}
