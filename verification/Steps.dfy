/**
 What each operation does to the store, as a function of the store and the request.  The
 service class is proved to compute exactly these; the theorems about runs are about these.
 */
module Steps {
  import opened Bytes
  import opened Envelope
  import opened Options
  import opened Tables
  import opened Requests

  // ---------- common table effects ----------

  function Log(s: Store, c: Change): Store {
    s.(log := s.log + [c.(sequence := s.repo.head + 1)], repo := s.repo.(head := s.repo.head + 1))
  }

  /** A live object is written and the write is published in the change log. */
  function Publish(s: Store, h: Head, action: Action, op: string, now: int): Store {
    Log(s.(heads := s.heads[h.fileId := h]),
        Change(0, h.fileId, action, h.revision, h.contentGeneration, h.metaGeneration, h.pseudonym, h.contentHash, op,
          now))
  }

  function PutLedger(s: Store, fileId: string, live: bool, createdAt: int, deletedAt: int): Store {
    var row := if fileId in s.ledger then s.ledger[fileId].(live := live, deletedAt := deletedAt)
      else LedgerRow(live, createdAt, deletedAt);
    s.(ledger := s.ledger[fileId := row])
  }

  /** A version already recorded for that object and revision is left alone. */
  function PutVersion(c: Config, s: Store, v: Version): Store {
    if !c.historyEnabled || (v.fileId, v.revision) in s.versions then s
    else s.(versions := s.versions[(v.fileId, v.revision) := v])
  }

  function VersionOf(h: Head, action: Action, deviceId: string, op: string, now: int): Version {
    Version(h.fileId, h.revision, h.contentGeneration, h.blobId, h.contentHash, h.size, h.mtime, action, deviceId,
      h.keyEpoch, op, now)
  }

  /** Versions go, and with them the blobs that only they referred to. */
  function DropVersions(s: Store, keys: set<VersionKey>, collect: bool): Store {
    var versions := map k | k in s.versions && k !in keys :: s.versions[k];
    var gone := set k | k in keys && k in s.versions && s.versions[k].blobId != "" &&
      !Referenced(s.heads, versions, s.versions[k].blobId) :: s.versions[k].blobId;
    s.(versions := versions, blobs := if collect then s.blobs - gone else s.blobs)
  }

  // ---------- upload ----------

  ghost function UploadKey(o: Oracle, cur: Option<Head>, q: UploadRequest): string {
    if q.canonicalHash != "" then "h:" + q.canonicalHash
    else if cur.Some? then cur.value.canonicalKey
    else o.canonical(q.path)
  }

  /** The identity of a new object: the client's choice, or the first unused random id. */
  function NewFileId(ledger: map<string, LedgerRow>, wanted: string, random: seq<string>): Option<string> {
    if wanted != "" then (if wanted in ledger then None else Some(wanted)) else FirstUnused(ledger, random, 4)
  }

  function FirstUnused(ledger: map<string, LedgerRow>, random: seq<string>, tries: nat): Option<string> {
    if tries == 0 || random == [] then None
    else if random[0] !in ledger then Some(random[0])
    else FirstUnused(ledger, random[1..], tries - 1)
  }

  function Generation(body: bytes): Option<int> {
    if ParseHeader(body).Some? then Some(ParseHeader(body).value.generation) else None
  }

  function HeaderKeyEpoch(body: bytes): int {
    if ParseHeader(body).Some? then ParseHeader(body).value.keyEpoch else 0
  }

  /** The request itself, before the store is looked at. */
  function UploadMalformed(o: Oracle, q: UploadRequest): Option<Error> {
    if !o.validPath(q.path) then Some(InvalidPath)
    else if q.clientFileId != "" && !IsHex32(q.clientFileId) then Some(InvalidPath)
    else if q.action == Some(Delete) then Some(InvalidPath)
    else if o.hash(q.body) != q.claimedHash then Some(HashMismatch)
    else None
  }

  /** The envelope and naming rules in force. */
  function UploadForbidden(s: Store, cur: Option<Head>, q: UploadRequest): Option<Error> {
    var env := EnvelopeVersion(q.body);
    var guard := GuardWrite(s.repo, q.client, q.deviceId, q.path);
    if guard.Some? then guard
    else if s.repo.content != Plaintext && env == 0 then Some(PlaintextRejected)
    else if env < s.repo.minEnvelope then Some(EnvelopeTooOld)
    else if cur.Some? && cur.value.envelope == 3 && env < 3 then Some(EnvelopeTooOld)
    else if ByIdOnly(s.repo) && !IsHex32(q.path) then Some(MetaRequired)
    else if ByIdOnly(s.repo) && cur.None? && (q.metaEnc == "" || q.canonicalHash == "") then Some(MetaRequired)
    else if ByIdOnly(s.repo) && cur.None? && q.clientFileId != "" && q.clientFileId != q.path then Some(MetaRequired)
    else None
  }

  ghost function UploadVerdict(o: Oracle, s: Store, q: UploadRequest): Verdict {
    var cur := Named(s.heads, q.path);
    var malformed, forbidden := UploadMalformed(o, q), UploadForbidden(s, cur, q);
    if malformed.Some? then Refuse(malformed.value)
    else if forbidden.Some? then Refuse(forbidden.value)
    else if cur.Some? then UploadOver(o, s, cur.value, q)
    else UploadNew(o, s, q)
  }

  ghost function UploadOver(o: Oracle, s: Store, cur: Head, q: UploadRequest): Verdict {
    var gen := Generation(q.body);
    if cur.contentHash == o.hash(q.body) then InEffect
    else if Logged(s.log, cur.fileId, q.client.operationId) then InEffect
    else if gen.Some? && cur.contentGeneration > 0 && gen.value <= cur.contentGeneration then Refuse(Conflict)
    else if q.baseRevision != cur.revision then Refuse(Conflict)
    else Commit(WithContent(o, cur.(revision := cur.revision + 1, canonicalKey := UploadKey(o, Some(cur), q)), q))
  }

  ghost function UploadNew(o: Oracle, s: Store, q: UploadRequest): Verdict {
    var key := UploadKey(o, None, q);
    var fileId := NewFileId(s.ledger, if ByIdOnly(s.repo) then q.path else q.clientFileId, q.freshIds);
    if Barred(s.tombs, q.path, key) then Refuse(DeletedConflict)
    else if q.baseRevision != 0 then Refuse(Conflict)
    else if Collides(s.heads, key, "") then Refuse(PathCollision)
    else if fileId.None? then Refuse(FileIdConflict)
    else Commit(WithContent(o, Head(fileId.value, 1, 0, "", "", 0, 0, if q.metaEnc != "" then 1 else 0,
                                    q.path, q.metaEnc, key, 0, 0, q.now, q.now), q))
  }

  /** The uploaded content put into a head. */
  function WithContent(o: Oracle, h: Head, q: UploadRequest): Head {
    var gen := Generation(q.body);
    h.(contentGeneration := if gen.Some? then gen.value else h.contentGeneration,
       blobId := BlobOf(o, o.hash(q.body)), contentHash := o.hash(q.body), size := |q.body|,
       mtime := if q.mtime <= 0 then q.nowMillis else q.mtime,
       pseudonym := q.path, envelope := EnvelopeVersion(q.body), keyEpoch := HeaderKeyEpoch(q.body), updatedAt := q.now)
  }

  /** No content has no blob. */
  function BlobOf(o: Oracle, hash: string): string {
    if hash == "" then "" else o.blobName(hash)
  }

  /** The stored copy does not pass for the verified upload. */
  predicate Damaged(o: Oracle, strict: bool, stored: bytes, body: bytes) {
    |stored| != |body| || (strict && o.hash(stored) != o.hash(body))
  }

  /** Storing the verified bytes under a blob name: a good copy is kept, a damaged one is
      moved to quarantine and replaced.  Returns whether the upload may go on. */
  function StoreBlob(o: Oracle, strict: bool, blobs: map<string, bytes>, blob: string, body: bytes, fault: Fault,
          quarantineFull: bool): (bool, map<string, bytes>)
  {
    if blob in blobs && !Damaged(o, strict, blobs[blob], body) then (true, blobs)
    else match fault
      case RenameFails => (false, blobs - {blob})
      case BeforeRename => (false, if quarantineFull then blobs else blobs - {blob})
      case AfterRename => (false, blobs[blob := body])
      case _ => (true, blobs[blob := body])
  }

  ghost function UploadNext(o: Oracle, c: Config, s: Store, q: UploadRequest): Store {
    UploadApply(o, c, s, q, UploadVerdict(o, s, q))
  }

  function UploadApply(o: Oracle, c: Config, s: Store, q: UploadRequest, verdict: Verdict): Store {
    if !verdict.Commit? then s
    else
      var h := verdict.head;
      var (stored, blobs) := StoreBlob(o, c.strictVerify, s.blobs, h.blobId, q.body, q.fault, q.quarantineFull);
      var s1 := s.(blobs := blobs);
      if !stored || q.fault == BeforeCommit || !UniqueAllows(s.heads, h) then s1
      else UploadCommitted(o, c, s1, h, q)
  }

  /** The committed transaction, and the pruning of the object's history that goes with it. */
  function UploadCommitted(o: Oracle, c: Config, s: Store, h: Head, q: UploadRequest): Store {
    UploadPruned(o, c, UploadWritten(c, s, h, q), h, q.now, q.fault != AfterCommit)
  }

  /** The retention of the object just written. */
  function UploadPruned(o: Oracle, c: Config, s: Store, h: Head, now: int, collect: bool): Store {
    if !c.historyEnabled then s
    else
      var (days, max) := RetentionFor(o, c, s.repo.meta, h.pseudonym);
      DropVersions(s, Expired(s.versions, h.fileId, now, days, max), collect)
  }

  function UploadWritten(c: Config, s: Store, h: Head, q: UploadRequest): Store {
    var action := if q.action.Some? then q.action.value else Upsert;
    PutVersion(c, Publish(PutLedger(s, h.fileId, true, h.createdAt, 0), h, Upsert, q.client.operationId, q.now),
               VersionOf(h, action, q.deviceId, q.client.operationId, q.now))
  }

  // ---------- delete ----------

  ghost function DeleteVerdict(o: Oracle, s: Store, q: DeleteRequest): Verdict {
    var cur := Named(s.heads, q.path);
    var guard := GuardWrite(s.repo, q.client, q.deviceId, q.path);
    if !o.validPath(q.path) then Refuse(InvalidPath)
    else if guard.Some? then Refuse(guard.value)
    else if cur.None? then
      if exists f :: f in s.tombs && s.tombs[f].lastPseudonym == q.path then InEffect else Refuse(NotFound)
    else if q.baseRevision != cur.value.revision then Refuse(Conflict)
    else Commit(cur.value)
  }

  function RetainUntil(c: Config, now: int): int {
    if c.tombstoneDays <= 0 then 0 else now + c.tombstoneDays * 86400
  }

  ghost function DeleteNext(o: Oracle, c: Config, s: Store, q: DeleteRequest): Store {
    DeleteApply(c, s, q, DeleteVerdict(o, s, q))
  }

  ghost function TombstoneOf(c: Config, s: Store, h: Head, now: int): Tombstone {
    var prior := PriorContentHash(s.versions, h.fileId);
    Tombstone(h.fileId, h.pseudonym, h.canonicalKey, h.revision + 1, h.contentGeneration, h.metaGeneration, h.keyEpoch,
              if prior == "" then h.contentHash else prior, now, s.repo.head + 1, RetainUntil(c, now), false)
  }

  /** The head row moves into the tombstone table; its versions stay. */
  ghost function DeleteApply(c: Config, s: Store, q: DeleteRequest, verdict: Verdict): Store {
    if !verdict.Commit? then s
    else
      var h := verdict.head;
      var s1 := Log(s, Change(0, h.fileId, Delete, h.revision + 1, h.contentGeneration, h.metaGeneration, h.pseudonym,
        "", q.client.operationId, q.now));
      var s2 := PutLedger(s1.(tombs := s1.tombs[h.fileId := TombstoneOf(c, s, h, q.now)],
        heads := s1.heads - {h.fileId}), h.fileId, false, h.createdAt, q.now);
      PutVersion(c, s2, Version(h.fileId, h.revision + 1, 0, "", "", 0, h.mtime, Delete, q.deviceId, 0,
        q.client.operationId, q.now))
  }

  // ---------- rename ----------

  ghost function RenameVerdict(o: Oracle, s: Store, q: RenameRequest): Verdict {
    var guard := GuardWrite(s.repo, q.client, q.deviceId, q.from);
    var cur := Named(s.heads, q.from);
    var key := if q.canonicalHash != "" then "h:" + q.canonicalHash else o.canonical(q.to);
    if !o.validPath(q.from) || !o.validPath(q.to) then Refuse(InvalidPath)
    else if guard.Some? then Refuse(guard.value)
    else if s.repo.meta == MetaPlain && q.metaEnc != "" then Refuse(StateForbids)
    else if ByIdOnly(s.repo) && (q.from != q.to || q.metaEnc == "" || q.canonicalHash == "") then Refuse(MetaRequired)
    else if cur.None? then Refuse(NotFound)
    else if cur.value.metaGeneration != q.baseMetaGeneration then Refuse(MetaCas)
    else if Logged(s.log, cur.value.fileId, q.client.operationId) then InEffect
    else if !ByIdOnly(s.repo) && q.to != q.from && Named(s.heads, q.to).Some? then Refuse(Conflict)
    else if Collides(s.heads, key, cur.value.fileId) then Refuse(PathCollision)
    else Commit(cur.value.(pseudonym := q.to, canonicalKey := key, metaGeneration := cur.value.metaGeneration + 1,
        updatedAt := q.now,
                           encryptedMetadata := if q.metaEnc != "" then q.metaEnc else cur.value.encryptedMetadata))
  }

  ghost function RenameNext(o: Oracle, s: Store, q: RenameRequest): Store {
    RenameApply(s, q, RenameVerdict(o, s, q))
  }

  function RenameApply(s: Store, q: RenameRequest, verdict: Verdict): Store {
    if verdict.Commit? && UniqueAllows(s.heads, verdict.head)
       then Publish(s, verdict.head, Upsert, q.client.operationId, q.now) else s
  }

  // ---------- restore ----------

  ghost function RestoreVerdict(o: Oracle, s: Store, q: RestoreRequest): Verdict {
    var guard := GuardWrite(s.repo, q.client, q.deviceId, q.pseudonym);
    if !IsHex32(q.fileId) || !o.validPath(q.pseudonym) then Refuse(InvalidPath)
    else if guard.Some? then Refuse(guard.value)
    else if ByIdOnly(s.repo) && (q.pseudonym != q.fileId || q.metaEnc == "" || q.canonicalHash == "")
            then Refuse(MetaRequired)
    else if Logged(s.log, q.fileId, q.client.operationId) then InEffect
    else if q.fileId in s.tombs then RevivalVerdict(o, s, q, s.tombs[q.fileId])
    else if q.fileId in s.heads then InEffect
    else if q.fileId in s.ledger && !s.ledger[q.fileId].live then Refuse(TombstonePurged)
    else Refuse(NotFound)
  }

  ghost function RevivalVerdict(o: Oracle, s: Store, q: RestoreRequest, t: Tombstone): Verdict {
    var key := if q.canonicalHash != "" then "h:" + q.canonicalHash else o.canonical(q.pseudonym);
    var occupant := Named(s.heads, q.pseudonym);
    if q.expectedRevision != t.deletionRevision then Refuse(StaleRevision)
    else if t.contentGeneration > 0 && q.contentGeneration <= t.contentGeneration then Refuse(DeletedConflict)
    else if Collides(s.heads, key, q.fileId) then Refuse(PathCollision)
    else if occupant.Some? && occupant.value.fileId != q.fileId then Refuse(Conflict)
    else
      var blob := BlobOf(o, t.priorContentHash);
      Commit(Head(q.fileId, t.deletionRevision + 1, q.contentGeneration, blob, t.priorContentHash,
                  if blob != "" && blob in s.blobs then |s.blobs[blob]| else 0, q.now * 1000, t.metaGeneration + 1,
                  q.pseudonym, q.metaEnc, key, t.keyEpoch, if blob != "" &&
                    blob in s.blobs then EnvelopeVersion(s.blobs[blob]) else 0, q.now, q.now))
  }

  ghost function RestoreNext(o: Oracle, c: Config, s: Store, q: RestoreRequest): Store {
    RestoreApply(c, s, q, RestoreVerdict(o, s, q))
  }

  function RestoreApply(c: Config, s: Store, q: RestoreRequest, verdict: Verdict): Store {
    if !verdict.Commit? || !UniqueAllows(s.heads, verdict.head) then s
    else
      var h := verdict.head;
      var s1 := PutLedger(s, h.fileId, true, q.now, 0);
      var s2 := Publish(s1.(tombs := s1.tombs - {h.fileId}), h, Restore, q.client.operationId, q.now);
      PutVersion(c, s2, VersionOf(h, Restore, q.deviceId, q.client.operationId, q.now))
  }

  // ---------- content encryption ----------

  ghost predicate AllContentAtLeast(s: Store, version: int) {
    forall f :: f in s.heads ==> s.heads[f].blobId in s.blobs && EnvelopeVersion(s.blobs[s.heads[f].blobId]) >= version
  }

  function RaiseEnvelope(r: RepoState, version: int): RepoState {
    if r.minEnvelope < version then r.(minEnvelope := version) else r
  }

  function BegunContent(r: RepoState): RepoState {
    if r.content == Plaintext then r.(content := Encrypting, keyEpoch := r.keyEpoch + 1) else r
  }

  function BeginContentNext(s: Store): Store {
    s.(repo := BegunContent(s.repo))
  }

  ghost function CompleteContentNext(s: Store): Store {
    if s.repo.content == Encrypting && AllContentAtLeast(s, 1)
    then s.(repo := RaiseEnvelope(s.repo.(content := Encrypted), 1)) else s
  }

  function AbortedContent(r: RepoState): RepoState {
    if r.content == Encrypting then r.(content := Plaintext) else r
  }

  function AbortContentNext(s: Store): Store {
    s.(repo := AbortedContent(s.repo))
  }

  ghost function UpgradeEnvelopeNext(s: Store): Store {
    if s.repo.content == Encrypted && AllContentAtLeast(s, 3) then s.(repo := RaiseEnvelope(s.repo, 3)) else s
  }

  // ---------- metadata migration ----------

  /** What is still addressed by a real name. */
  function Todo(s: Store): set<JournalKey> {
    var m := s.repo.migration.id;
    (set f | f in s.heads && !(s.heads[f].pseudonym == f && s.heads[f].encryptedMetadata != "") ::
      JournalKey(m, f, ObjectEntry)) +
    (set f | f in s.tombs && s.tombs[f].lastPseudonym != f :: JournalKey(m, f, TombstoneEntry))
  }

  /** Entries are added as pending; old entries stay as they are. */
  function AddPending(journal: map<JournalKey, Stage>, keys: set<JournalKey>): map<JournalKey, Stage> {
    (map k | k in keys :: Pending) + journal
  }

  /** All of it goes into the journal, but for what a crash left out. */
  function Enqueue(s: Store, missed: set<JournalKey>): Store {
    s.(journal := AddPending(s.journal, Todo(s) - missed))
  }

  function MarkDone(s: Store, fileId: string, kind: JournalKind): Store {
    var k := JournalKey(s.repo.migration.id, fileId, kind);
    if k in s.journal then s.(journal := s.journal[k := Done]) else s
  }

  function BeginVerdict(r: RepoState, deviceId: string): Option<Error> {
    if r.content != Encrypted then Some(StateForbids)
    else if r.minEnvelope < 3 then Some(EnvelopeTooOld)
    else if r.meta == MetaEncrypted then Some(StateForbids)
    else if r.meta != MetaPlain && r.migration.owner != "" && r.migration.owner != deviceId then Some(MigrationLocked)
    else None
  }

  /** A new migration, or the same owner carrying on with the one under way. */
  function BegunRepo(r: RepoState, deviceId: string, newId: string, now: int): (r': RepoState)
    ensures r' == r.(meta := MetaMigrating, migration := r'.migration)
  {
    r.(meta := MetaMigrating,
       migration := if r.meta == MetaPlain
         then Migration(newId, deviceId, now + LEASE_SECONDS, r.head, r.formatEpoch + 1, r.keyEpoch)
                    else r.migration.(leaseExpiresAt := now + LEASE_SECONDS))
  }

  function BeginNext(s: Store, deviceId: string, newId: string, now: int, missed: set<JournalKey>): Store {
    if BeginVerdict(s.repo, deviceId).Some? then s
    else Enqueue(s.(repo := BegunRepo(s.repo, deviceId, newId, now)), missed)
  }

  function Renewed(r: RepoState, deviceId: string, now: int): RepoState {
    var m := r.migration;
    if m.id == "" || (m.owner != "" && m.owner != deviceId) then r
    else r.(migration := m.(leaseExpiresAt := now + LEASE_SECONDS))
  }

  function RenewLeaseNext(s: Store, deviceId: string, now: int): Store {
    s.(repo := Renewed(s.repo, deviceId, now))
  }

  function TakeoverVerdict(r: RepoState, migrationId: string, deviceId: string, now: int): Option<Error> {
    if r.migration.id == "" then Some(StateForbids)
    else if migrationId != r.migration.id then Some(MigrationMismatch)
    else if r.migration.owner != deviceId && r.migration.leaseExpiresAt > now then Some(LeaseActive)
    else None
  }

  function TakenOver(r: RepoState, migrationId: string, deviceId: string, now: int): RepoState {
    if TakeoverVerdict(r, migrationId, deviceId, now).Some? || r.migration.owner == deviceId then r
    else r.(migration := r.migration.(owner := deviceId, leaseExpiresAt := now + LEASE_SECONDS))
  }

  function TakeoverNext(s: Store, migrationId: string, deviceId: string, now: int): Store {
    s.(repo := TakenOver(s.repo, migrationId, deviceId, now))
  }

  function Released(r: RepoState, now: int): RepoState {
    if r.migration.owner == "" || r.migration.leaseExpiresAt > now then r
    else r.(migration := r.migration.(owner := "", leaseExpiresAt := 0))
  }

  function ExpireLeaseNext(s: Store, now: int): Store {
    s.(repo := Released(s.repo, now))
  }

  function OwnerOnly(r: RepoState, deviceId: string): Option<Error> {
    if r.meta != MetaMigrating then Some(StateForbids)
    else if r.migration.owner != "" && deviceId != r.migration.owner then Some(NotOwner)
    else None
  }

  ghost function MigrateObjectVerdict(s: Store, name: string, metaEnc: string, canonicalHash: string, deviceId: string,
          now: int): Verdict
  {
    var cur := Named(s.heads, name);
    if metaEnc == "" || !IsHex64(canonicalHash) then Refuse(MetaRequired)
    else if OwnerOnly(s.repo, deviceId).Some? then Refuse(OwnerOnly(s.repo, deviceId).value)
    else if cur.None? then Refuse(NotFound)
    else if cur.value.envelope < 3 then Refuse(PlaintextRejected)
    else if cur.value.pseudonym == cur.value.fileId && cur.value.encryptedMetadata == metaEnc then InEffect
    else Commit(cur.value.(pseudonym := cur.value.fileId, encryptedMetadata := metaEnc,
        canonicalKey := "h:" + canonicalHash,
                           metaGeneration := if cur.value.metaGeneration < 1 then 1
                             else cur.value.metaGeneration, updatedAt := now))
  }

  ghost function MigrateObjectNext(s: Store, name: string, metaEnc: string, canonicalHash: string, deviceId: string,
          now: int): Store
  {
    MigrateObjectApply(s, Named(s.heads, name), now,
      MigrateObjectVerdict(s, name, metaEnc, canonicalHash, deviceId, now))
  }

  function MigrateObjectApply(s: Store, cur: Option<Head>, now: int, verdict: Verdict): Store {
    match verdict
    case Refuse(_) => s
    case InEffect => if cur.Some? then MarkDone(s, cur.value.fileId, ObjectEntry) else s
    case Commit(h) =>
      if UniqueAllows(s.heads, h) then MarkDone(Publish(s, h, Upsert, "", now), h.fileId, ObjectEntry) else s
  }

  function MigrateTombstoneVerdict(s: Store, fileId: string, canonicalHash: string, deviceId: string): Option<Error> {
    if !IsHex32(fileId) || !IsHex64(canonicalHash) then Some(MetaRequired)
    else if OwnerOnly(s.repo, deviceId).Some? then OwnerOnly(s.repo, deviceId)
    else if fileId !in s.tombs then Some(NotFound)
    else None
  }

  function MigrateTombstoneNext(s: Store, fileId: string, canonicalHash: string, deviceId: string): Store {
    if MigrateTombstoneVerdict(s, fileId, canonicalHash, deviceId).Some? then s
    else
      var t := s.tombs[fileId].(lastPseudonym := fileId, canonicalKey := "h:" + canonicalHash);
      MarkDone(s.(tombs := s.tombs[fileId := t]), fileId, TombstoneEntry)
  }

  predicate JournalFinished(s: Store) {
    forall k :: k in s.journal && k.migrationId == s.repo.migration.id ==>
      s.journal[k] == Done || s.journal[k] == Skipped
  }

  function VerifyVerdict(s: Store, deviceId: string): Option<Error> {
    if s.repo.meta == MetaVerifying then None
    else if OwnerOnly(s.repo, deviceId).Some? then OwnerOnly(s.repo, deviceId)
    else if !JournalFinished(s) then Some(MigrationIncomplete)
    else None
  }

  function VerifyNext(s: Store, deviceId: string): Store {
    if VerifyVerdict(s, deviceId).Some? then s else s.(repo := s.repo.(meta := MetaVerifying))
  }

  function ClearJournal(s: Store): Store {
    s.(journal := map k | k in s.journal && k.migrationId != s.repo.migration.id :: s.journal[k])
  }

  function AbortNext(s: Store): Store {
    if s.repo.meta != MetaMigrating && s.repo.meta != MetaVerifying then s
    else
      var s1 := ClearJournal(s);
      s1.(repo := s1.repo.(meta := MetaPlain, migration := NO_MIGRATION))
  }

  // ---------- the validator ----------

  predicate HeadReady(s: Store, f: string)
    requires f in s.heads
  {
    var h := s.heads[f];
    h.envelope >= 3 && (s.repo.keyEpoch > 0 ==> h.keyEpoch == s.repo.keyEpoch) &&
    h.encryptedMetadata != "" && h.pseudonym == h.fileId && IsHex32(h.fileId)
  }

  /** The largest generation on record for an object, zero when there is none on record. */
  ghost predicate IsMaxGeneration(versions: map<VersionKey, Version>, f: string, max: int) {
    (forall k :: k in versions && k.0 == f ==> versions[k].contentGeneration <= max) &&
    ((exists k :: k in versions && k.0 == f && versions[k].contentGeneration == max) ||
      (max == 0 && Unrecorded(versions, f)))
  }

  predicate Unrecorded(versions: map<VersionKey, Version>, f: string) {
    forall k :: k in versions ==> k.0 != f
  }

  /** No recorded version is of a later generation than the head, and with none on record the
      head's is not negative. */
  predicate GenerationMonotonic(s: Store, f: string)
    requires f in s.heads
  {
    (forall k :: k in s.versions && k.0 == f ==> s.versions[k].contentGeneration <= s.heads[f].contentGeneration) &&
    (Unrecorded(s.versions, f) ==> 0 <= s.heads[f].contentGeneration)
  }

  predicate HistoryKnown(s: Store) {
    forall k :: k in s.versions ==> k.0 in s.ledger
  }

  predicate TombstonesPrivate(s: Store) {
    forall f :: f in s.tombs ==> s.tombs[f].lastPseudonym == s.tombs[f].fileId
  }

  predicate NoStaleChange(s: Store) {
    forall i :: 0 <= i < |s.log| && s.log[i].sequence > s.repo.migration.cutoff ==>
      s.log[i].pseudonym == s.log[i].fileId
  }

  predicate EpochReady(r: RepoState) {
    r.migration.targetEpoch > r.formatEpoch && r.minEnvelope >= 3
  }

  /** The validator has nothing to report.  The version table itself keeps revisions unique. */
  predicate Validates(s: Store, namedShares: nat, sentinels: nat) {
    (forall f :: f in s.heads ==> HeadReady(s, f) && GenerationMonotonic(s, f)) &&
    HistoryKnown(s) && TombstonesPrivate(s) && NoStaleChange(s) &&
    namedShares == 0 && sentinels == 0 && EpochReady(s.repo)
  }

  /** How the physical erasure before the switch ends. */
  datatype Erasure = Wiped | WipeFailed | Residual

  function CompleteVerdict(s: Store, migrationId: string, deviceId: string, namedShares: nat, sentinels: nat,
          erasure: Erasure): Option<Error>
  {
    if s.repo.meta == MetaEncrypted then None
    else if s.repo.meta != MetaVerifying then Some(StateForbids)
    else if migrationId != "" && migrationId != s.repo.migration.id then Some(MigrationMismatch)
    else if s.repo.migration.owner != "" && deviceId != s.repo.migration.owner then Some(NotOwner)
    else if !Validates(s, namedShares, sentinels) then Some(ValidationFailed)
    else if erasure == WipeFailed then Some(StorageFailed)
    else if erasure == Residual then Some(ValidationFailed)
    else None
  }

  function CompleteNext(s: Store, migrationId: string, deviceId: string, namedShares: nat, sentinels: nat,
          erasure: Erasure): Store
  {
    if s.repo.meta == MetaEncrypted ||
       CompleteVerdict(s, migrationId, deviceId, namedShares, sentinels, erasure).Some? then s
    else Switched(s)
  }

  function Switched(s: Store): Store {
    var r := s.repo;
    ClearJournal(s).(log := [],
      repo := r.(meta := MetaEncrypted,
                 formatEpoch := if r.formatEpoch < r.migration.targetEpoch then r.migration.targetEpoch
                   else r.formatEpoch,
                 minRetained := if r.minRetained < r.head then r.head else r.minRetained,
                 migration := NO_MIGRATION))
  }

  // ---------- maintenance ----------

  function ActiveDevices(s: Store): set<string> {
    set d | d in s.devices && !s.devices[d].revoked
  }

  /** Every device that is not revoked has confirmed this sequence. */
  predicate AllAcked(s: Store, sequence: int) {
    forall d :: d in ActiveDevices(s) ==> sequence <= s.devices[d].acked
  }

  predicate Purgeable(s: Store, t: Tombstone, now: int) {
    t.retainUntil != 0 && t.retainUntil <= now && t.deletionSequence != 0 && AllAcked(s, t.deletionSequence)
  }

  function PurgeNext(c: Config, s: Store, now: int): Store {
    if c.tombstoneDays <= 0 || ActiveDevices(s) == {} then s
    else s.(tombs := map f | f in s.tombs && !Purgeable(s, s.tombs[f], now) :: s.tombs[f])
  }

  /** The last sequence trimming by age and by count gives up; 0 for none. */
  function TrimPoint(c: Config, s: Store, now: int): int {
    var byAge := if c.changesDays > 0 then LastBefore(s.log, now - c.changesDays * 86400) else 0;
    var byCount := if c.changesMax > 0 && |s.log| > c.changesMax then s.log[|s.log| - 1 - c.changesMax].sequence else 0;
    if byCount > byAge then byCount else byAge
  }

  /** The largest sequence among changes older than a time; 0 for none. */
  function LastBefore(log: seq<Change>, cutoff: int): int {
    if log == [] then 0
    else
      var rest := LastBefore(log[..|log| - 1], cutoff);
      var last := log[|log| - 1];
      if last.createdAt < cutoff && last.sequence > rest then last.sequence else rest
  }

  function After(log: seq<Change>, sequence: int): seq<Change> {
    if log == [] then []
    else if log[0].sequence <= sequence then After(log[1..], sequence)
    else [log[0]] + After(log[1..], sequence)
  }

  function TrimLogNext(c: Config, s: Store, now: int): Store {
    var upTo := TrimPoint(c, s, now);
    if upTo == 0 then s
    else s.(log := After(s.log, upTo),
        repo := s.repo.(minRetained := if s.repo.minRetained < upTo then upTo else s.repo.minRetained))
  }

  /** Dropping versions of any kind of pruning: never an object's newest. */
  function PruneNext(s: Store, keys: set<VersionKey>): Store {
    if forall k :: k in keys ==> k in s.versions && Newer(s.versions, k) != {} then DropVersions(s, keys, true) else s
  }

  /** Removing blobs nothing refers to. */
  function CollectNext(s: Store, blobs: set<string>): Store {
    s.(blobs := map b | b in s.blobs && (b !in blobs || Referenced(s.heads, s.versions, b)) :: s.blobs[b])
  }

  /** The disk spoils a stored file. */
  function DamageNext(s: Store, blob: string, content: bytes): Store {
    if blob in s.blobs then s.(blobs := s.blobs[blob := content]) else s
  }

  function AckNext(s: Store, deviceId: string, sequence: int): Store {
    if deviceId in s.devices && s.devices[deviceId].acked < sequence
    then s.(devices := s.devices[deviceId := s.devices[deviceId].(acked := sequence)]) else s
  }
}
