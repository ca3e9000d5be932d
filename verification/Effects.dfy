/**
 However many operations there are, they touch objects in three ways only: a live object is
 written and published, an object is deleted and published, or no object changes at all.
 Each operation is placed in one of the three; whatever is proved of the three holds of all.
 */
module Effects {
  import opened Bytes
  import opened Options
  import opened Tables
  import opened Requests
  import opened Steps

  datatype Step =
    | Upload(upload: UploadRequest)
    | DeleteObject(delete: DeleteRequest)
    | Rename(rename: RenameRequest)
    | RestoreObject(restore: RestoreRequest)
    | BeginContent | CompleteContent | AbortContent | UpgradeEnvelope
    | RotateKey | RotateRepo(epoch: string)
    | Begin(device: string, newId: string, now: int, missed: set<JournalKey>)
    | RenewLease(device: string, now: int)
    | Takeover(migrationId: string, device: string, now: int)
    | ExpireLease(now: int)
    | MigrateObject(name: string, metaEnc: string, canonicalHash: string, device: string, now: int)
    | MigrateTombstone(fileId: string, canonicalHash: string, device: string)
    | Verify(device: string)
    | Abort
    | Complete(migrationId: string, device: string, namedShares: nat, sentinels: nat, erasure: Erasure)
    | Purge(now: int)
    | TrimLog(now: int)
    | Prune(keys: set<VersionKey>)
    | Collect(collected: set<string>)
    | Damage(blob: string, content: bytes)
    | AddDevice(device: string) | RevokeDevice(device: string) | Ack(device: string, sequence: int)

  ghost function Next(o: Oracle, c: Config, s: Store, step: Step): Store {
    if WritesObjects(step) then AfterWrite(o, c, s, step)
    else if Sweeps(step) then AfterSweep(c, s, step)
    else if MovesMigration(step) then AfterMigrationMove(s, step)
    else AfterOther(s, step)
  }

  predicate WritesObjects(step: Step) {
    step.Upload? || step.DeleteObject? || step.Rename? || step.RestoreObject? || step.MigrateObject?
  }

  /** Steps on tombstones, versions, the log or the blobs. */
  predicate Sweeps(step: Step) {
    step.MigrateTombstone? || step.Complete? || step.Purge? || step.TrimLog? || step.Prune? || step.Collect? ||
      step.Damage?
  }

  /** Steps on the migration record, and on the journal. */
  predicate MovesMigration(step: Step) {
    step.Begin? || step.RenewLease? || step.Takeover? || step.ExpireLease? || step.Verify? || step.Abort?
  }

  /** Steps on content encryption, epochs and devices. */
  predicate MovesOther(step: Step) {
    !WritesObjects(step) && !Sweeps(step) && !MovesMigration(step)
  }

  ghost function AfterWrite(o: Oracle, c: Config, s: Store, step: Step): Store
    requires WritesObjects(step)
  {
    match step
    case Upload(q) => UploadNext(o, c, s, q)
    case DeleteObject(q) => DeleteNext(o, c, s, q)
    case Rename(q) => RenameNext(o, s, q)
    case RestoreObject(q) => RestoreNext(o, c, s, q)
    case MigrateObject(name, metaEnc, canonicalHash, device, now) => MigrateObjectNext(s, name, metaEnc, canonicalHash,
        device, now)
  }

  ghost function AfterSweep(c: Config, s: Store, step: Step): Store
    requires Sweeps(step)
  {
    match step
    case MigrateTombstone(fileId, canonicalHash, device) => MigrateTombstoneNext(s, fileId, canonicalHash, device)
    case Complete(id, device, shares, sentinels, erasure) => CompleteNext(s, id, device, shares, sentinels, erasure)
    case Purge(now) => PurgeNext(c, s, now)
    case TrimLog(now) => TrimLogNext(c, s, now)
    case Prune(keys) => PruneNext(s, keys)
    case Collect(blobs) => CollectNext(s, blobs)
    case Damage(blob, content) => DamageNext(s, blob, content)
  }

  ghost function AfterMigrationMove(s: Store, step: Step): Store
    requires MovesMigration(step)
  {
    match step
    case Begin(device, newId, now, missed) => BeginNext(s, device, newId, now, missed)
    case RenewLease(device, now) => RenewLeaseNext(s, device, now)
    case Takeover(id, device, now) => TakeoverNext(s, id, device, now)
    case ExpireLease(now) => ExpireLeaseNext(s, now)
    case Verify(device) => VerifyNext(s, device)
    case Abort => AbortNext(s)
  }

  ghost function AfterOther(s: Store, step: Step): Store
    requires MovesOther(step)
  {
    match step
    case BeginContent => BeginContentNext(s)
    case CompleteContent => CompleteContentNext(s)
    case AbortContent => AbortContentNext(s)
    case UpgradeEnvelope => UpgradeEnvelopeNext(s)
    case RotateKey => s.(repo := s.repo.(keyEpoch := s.repo.keyEpoch + 1))
    case RotateRepo(epoch) => s.(repo := s.repo.(repoEpoch := epoch))
    case AddDevice(device) => if device in s.devices then s else s.(devices := s.devices[device := Device(0, false)])
    case RevokeDevice(device) => if device in s.devices
        then s.(devices := s.devices[device := s.devices[device].(revoked := true)]) else s
    case Ack(device, sequence) => AckNext(s, device, sequence)
  }

  /** What a step that writes an object decides about its request. */
  ghost function VerdictOf(o: Oracle, s: Store, step: Step): Verdict {
    match step
    case Upload(q) => UploadVerdict(o, s, q)
    case Rename(q) => RenameVerdict(o, s, q)
    case RestoreObject(q) => RestoreVerdict(o, s, q)
    case MigrateObject(name, metaEnc, canonicalHash, device, now) => MigrateObjectVerdict(s, name, metaEnc,
        canonicalHash, device, now)
    case _ => InEffect
  }

  // ---------- the state every step starts from ----------

  /** Live, deleted and known objects agree: an object is live exactly when it has a head, no
      object is both live and a tombstone, and both are on the ledger. */
  ghost predicate LifeCycle(s: Store) {
    (forall f :: f in s.heads ==> s.heads[f].fileId == f && f in s.ledger && s.ledger[f].live) &&
    (forall f :: f in s.tombs ==> s.tombs[f].fileId == f && f in s.ledger && !s.ledger[f].live) &&
    (forall f :: f in s.ledger && s.ledger[f].live ==> f in s.heads)
  }

  ghost predicate NamesUnique(heads: map<string, Head>) {
    (forall f, g :: f in heads && g in heads && heads[f].pseudonym == heads[g].pseudonym ==> f == g) &&
    (forall f, g ::
      f in heads && g in heads && heads[f].canonicalKey != "" && heads[f].canonicalKey == heads[g].canonicalKey ==>
      f == g)
  }

  /** The log holds exactly the sequences after the watermark, up to the head. */
  ghost predicate LogDense(s: Store) {
    0 <= s.repo.minRetained <= s.repo.head && |s.log| == s.repo.head - s.repo.minRetained &&
    forall i :: 0 <= i < |s.log| ==> s.log[i].sequence == s.repo.minRetained + 1 + i
  }

  ghost predicate Sound(s: Store) {
    LifeCycle(s) && NamesUnique(s.heads) && LogDense(s)
  }

  // ---------- the three effects ----------

  datatype WriteKind = Created | Updated | Touched | Revived

  datatype Effect =
    | Quiet
    | Wrote(kind: WriteKind, h: Head, c: Change)
    | Erased(t: Tombstone, c: Change)

  /** Where the written revision comes from. */
  ghost predicate RevisionFollows(s: Store, kind: WriteKind, h: Head) {
    match kind
    case Created => h.fileId !in s.ledger && h.revision == 1
    case Updated => h.fileId in s.heads && h.revision == s.heads[h.fileId].revision + 1 &&
                    OnlyContent(s.heads[h.fileId], h)
    case Touched => h.fileId in s.heads && OnlyNames(s.heads[h.fileId], h)
    case Revived => h.fileId in s.tombs && h.revision == s.tombs[h.fileId].deletionRevision + 1 &&
                    GoesBack(s.tombs[h.fileId], h)
  }

  /** A new content under the same name, with the same metadata. */
  predicate OnlyContent(h: Head, h': Head) {
    h'.fileId == h.fileId && h'.pseudonym == h.pseudonym && h'.encryptedMetadata == h.encryptedMetadata &&
    h'.metaGeneration == h.metaGeneration && h'.createdAt == h.createdAt
  }

  /** New names and metadata for the same content. */
  predicate OnlyNames(h: Head, h': Head) {
    h' == h.(pseudonym := h'.pseudonym, encryptedMetadata := h'.encryptedMetadata, canonicalKey := h'.canonicalKey,
      metaGeneration := h'.metaGeneration, updatedAt := h'.updatedAt)
  }

  /** The content the deletion remembers, under its key, one metadata generation on. */
  predicate GoesBack(t: Tombstone, h: Head) {
    h.contentHash == t.priorContentHash && h.keyEpoch == t.keyEpoch && h.metaGeneration == t.metaGeneration + 1
  }

  ghost predicate Publishes(s: Store, s': Store, c: Change) {
    c.sequence == s.repo.head + 1 && s'.log == s.log + [c] && s'.repo == s.repo.(head := s.repo.head + 1)
  }

  /** Old versions may go and one version of the object may come, under a key of its own. */
  ghost predicate VersionsFollow(s: Store, s': Store, key: VersionKey, generation: int) {
    forall k :: k in s'.versions ==>
      (k in s.versions && s'.versions[k] == s.versions[k]) ||
      (k == key && s'.versions[k].contentGeneration == generation)
  }

  /** No object changes.  Tombstones may go or be renamed, versions may go, and the log may
      lose a prefix. */
  ghost predicate IsQuiet(s: Store, s': Store) {
    s'.heads == s.heads && s'.ledger == s.ledger && s'.repo.head == s.repo.head &&
    s.repo.minRetained <= s'.repo.minRetained <= s.repo.head && s'.log == After(s.log, s'.repo.minRetained) &&
    TombsKept(s.tombs, s'.tombs) && VersionsKept(s.versions, s'.versions)
  }

  ghost predicate TombsKept(tombs: map<string, Tombstone>, tombs': map<string, Tombstone>) {
    forall f :: f in tombs' ==> f in tombs && SameDeletion(tombs[f], tombs'[f])
  }

  ghost predicate VersionsKept(versions: map<VersionKey, Version>, versions': map<VersionKey, Version>) {
    forall k :: k in versions' ==> k in versions && versions'[k] == versions[k]
  }

  ghost predicate IsWrite(s: Store, s': Store, kind: WriteKind, h: Head, c: Change) {
    RevisionFollows(s, kind, h) && UniqueAllows(s.heads, h) && Publishes(s, s', c) &&
    s'.heads == s.heads[h.fileId := h] && s'.tombs == s.tombs - {h.fileId} &&
    h.fileId in s'.ledger && s'.ledger[h.fileId].live && s'.ledger == s.ledger[h.fileId := s'.ledger[h.fileId]] &&
    Announces(h, c) && VersionsFollow(s, s', (h.fileId, h.revision), h.contentGeneration) &&
    (kind == Touched ==> s'.versions == s.versions)
  }

  ghost predicate Announces(h: Head, c: Change) {
    c.fileId == h.fileId && c.action != Delete && c.revision == h.revision &&
      c.contentGeneration == h.contentGeneration &&
    c.metaGeneration == h.metaGeneration && c.pseudonym == h.pseudonym && c.contentHash == h.contentHash
  }

  /** The deletion goes by the names the object had, and knows its generations and key. */
  predicate Remembers(t: Tombstone, h: Head) {
    t.fileId == h.fileId && t.lastPseudonym == h.pseudonym && t.canonicalKey == h.canonicalKey &&
    t.deletionRevision == h.revision + 1 && t.contentGeneration == h.contentGeneration &&
    t.metaGeneration == h.metaGeneration && t.keyEpoch == h.keyEpoch
  }

  ghost predicate IsErase(s: Store, s': Store, t: Tombstone, c: Change) {
    t.fileId in s.heads && Remembers(t, s.heads[t.fileId]) && t.deletionSequence == c.sequence &&
    Publishes(s, s', c) && s'.heads == s.heads - {t.fileId} && s'.tombs == s.tombs[t.fileId := t] &&
    t.fileId in s'.ledger && !s'.ledger[t.fileId].live && s'.ledger == s.ledger[t.fileId := s'.ledger[t.fileId]] &&
    c.fileId == t.fileId && c.action == Delete && c.revision == t.deletionRevision &&
    VersionsFollow(s, s', (t.fileId, t.deletionRevision), 0)
  }

  ghost predicate HasEffect(s: Store, s': Store, e: Effect) {
    match e
    case Quiet => IsQuiet(s, s')
    case Wrote(kind, h, c) => IsWrite(s, s', kind, h, c)
    case Erased(t, c) => IsErase(s, s', t, c)
  }

  /** The deletion itself: everything of a tombstone but the names it is found by. */
  ghost predicate SameDeletion(t: Tombstone, t': Tombstone) {
    t' == t.(lastPseudonym := t'.lastPseudonym, canonicalKey := t'.canonicalKey)
  }

  // ---------- queries in a sound state ----------

  lemma NamedIs(heads: map<string, Head>, name: string)
    requires NamesUnique(heads)
    ensures Named(heads, name).None? <==> forall f :: f in heads ==> heads[f].pseudonym != name
    ensures Named(heads, name).Some? ==>
              exists f :: f in heads && heads[f] == Named(heads, name).value && heads[f].pseudonym == name
    ensures forall f :: f in heads && heads[f].pseudonym == name ==> Named(heads, name) == Some(heads[f])
  {
  }

  lemma PutKeepsNames(heads: map<string, Head>, h: Head)
    requires NamesUnique(heads) && UniqueAllows(heads, h)
    ensures NamesUnique(heads[h.fileId := h])
    ensures Named(heads[h.fileId := h], h.pseudonym) == Some(h)
  {
    var put := heads[h.fileId := h];
    assert h.fileId in put && put[h.fileId] == h;
    NamedIs(put, h.pseudonym);
  }

  lemma {:induction false} AfterDense(log: seq<Change>, from: int, to: int)
    requires to <= from + |log|
    requires forall i :: 0 <= i < |log| ==> log[i].sequence == from + 1 + i
    ensures After(log, to) == if to <= from then log else log[to - from..]
  {
    if log != [] { AfterDense(log[1..], from + 1, to); }
  }

  lemma AfterNothing(s: Store)
    requires LogDense(s)
    ensures After(s.log, s.repo.minRetained) == s.log
  {
    AfterDense(s.log, s.repo.minRetained, s.repo.minRetained);
  }

  // ---------- each operation has one of the effects ----------

  lemma UploadEffect(o: Oracle, c: Config, s: Store, q: UploadRequest) returns (e: Effect)
    requires Sound(s)
    ensures HasEffect(s, UploadNext(o, c, s, q), e)
    ensures e.Wrote? ==> (e.kind == Created || e.kind == Updated) && e.c.operationId == q.client.operationId
    ensures e.Wrote? && e.kind != Created ==> !Logged(s.log, e.h.fileId, e.c.operationId)
    ensures e.Wrote? ==> UploadVerdict(o, s, q) == Commit(e.h)
    ensures !e.Erased? && (e.Quiet? ==> UploadNext(o, c, s, q).tombs == s.tombs)
  {
    var kind := Updated;
    if UploadVerdict(o, s, q).Commit? { kind := UploadFollows(o, s, q); }
    e := UploadApplied(o, c, s, q, UploadVerdict(o, s, q), kind);
  }

  lemma UploadApplied(o: Oracle, c: Config, s: Store, q: UploadRequest, verdict: Verdict, kind: WriteKind)
    returns (e: Effect)
    requires kind != Touched
    requires LogDense(s)
    requires verdict.Commit? ==> RevisionFollows(s, kind, verdict.head) && verdict.head.fileId !in s.tombs
    ensures HasEffect(s, UploadApply(o, c, s, q, verdict), e)
    ensures e.Wrote? ==> verdict == Commit(e.h) && e.kind == kind && e.c.operationId == q.client.operationId
    ensures !e.Erased? && (e.Quiet? ==> UploadApply(o, c, s, q, verdict).tombs == s.tombs)
  {
    AfterNothing(s);
    e := Quiet;
    if verdict.Commit? {
      var h := verdict.head;
      var (stored, blobs) := StoreBlob(o, c.strictVerify, s.blobs, h.blobId, q.body, q.fault, q.quarantineFull);
      if stored && q.fault != BeforeCommit && UniqueAllows(s.heads, h) {
        UploadIsWrite(o, c, s, blobs, h, q, kind);
        e := Wrote(kind, h, UploadApply(o, c, s, q, verdict).log[|s.log|]);
      }
    }
  }

  lemma UploadFollows(o: Oracle, s: Store, q: UploadRequest) returns (kind: WriteKind)
    requires Sound(s) && UploadVerdict(o, s, q).Commit?
    ensures kind == if Named(s.heads, q.path).None? then Created else Updated
    ensures RevisionFollows(s, kind, UploadVerdict(o, s, q).head) && UploadVerdict(o, s, q).head.fileId !in s.tombs
    ensures kind != Created ==> !Logged(s.log, UploadVerdict(o, s, q).head.fileId, q.client.operationId)
  {
    NamedIs(s.heads, q.path);
    FirstUnusedIsUnused(s.ledger, q.freshIds, 4);
    kind := if Named(s.heads, q.path).Some? then Updated else Created;
  }

  lemma UploadTables(o: Oracle, c: Config, s: Store, h: Head, q: UploadRequest)
    ensures var s' := UploadCommitted(o, c, s, h, q);
            s'.heads == s.heads[h.fileId := h] && s'.tombs == s.tombs &&
              s'.ledger == PutLedger(s, h.fileId, true, h.createdAt, 0).ledger
  {
  }

  lemma UploadPublishes(o: Oracle, c: Config, s: Store, h: Head, q: UploadRequest)
    ensures var s' := UploadCommitted(o, c, s, h, q);
            s'.repo == s.repo.(head := s.repo.head + 1) &&
            s'.log == s.log + [Change(s.repo.head + 1, h.fileId, Upsert, h.revision, h.contentGeneration,
              h.metaGeneration,
                                      h.pseudonym, h.contentHash, q.client.operationId, q.now)]
  {
  }

  lemma UploadVersions(o: Oracle, c: Config, s: Store, h: Head, q: UploadRequest)
    ensures VersionsFollow(s, UploadCommitted(o, c, s, h, q), (h.fileId, h.revision), h.contentGeneration)
  {
  }

  lemma UploadShape(o: Oracle, c: Config, s: Store, h: Head, q: UploadRequest)
    requires h.fileId !in s.tombs
    ensures var s' := UploadCommitted(o, c, s, h, q);
            && s'.heads == s.heads[h.fileId := h] && s'.tombs == s.tombs == s.tombs - {h.fileId}
            && s'.ledger == PutLedger(s, h.fileId, true, h.createdAt, 0).ledger &&
              s'.repo == s.repo.(head := s.repo.head + 1)
            && s'.log == s.log + [Change(s.repo.head + 1, h.fileId, Upsert, h.revision, h.contentGeneration,
              h.metaGeneration,
                                         h.pseudonym, h.contentHash, q.client.operationId, q.now)]
            && VersionsFollow(s, s', (h.fileId, h.revision), h.contentGeneration)
  {
    UploadTables(o, c, s, h, q);
    UploadPublishes(o, c, s, h, q);
    UploadVersions(o, c, s, h, q);
  }

  lemma UploadIsWrite(o: Oracle, c: Config, s: Store, blobs: map<string, bytes>, h: Head, q: UploadRequest,
          kind: WriteKind)
    requires kind != Touched && RevisionFollows(s, kind, h) && h.fileId !in s.tombs && UniqueAllows(s.heads, h)
    ensures var s' := UploadCommitted(o, c, s.(blobs := blobs), h, q);
            |s'.log| == |s.log| + 1 && s'.log[|s.log|].operationId == q.client.operationId &&
              IsWrite(s, s', kind, h, s'.log[|s.log|])
  {
    UploadShape(o, c, s.(blobs := blobs), h, q);
  }

  lemma {:induction false} FirstUnusedIsUnused(ledger: map<string, LedgerRow>, random: seq<string>, tries: nat)
    ensures FirstUnused(ledger, random, tries).Some? ==> FirstUnused(ledger, random, tries).value !in ledger
  {
    if tries > 0 && random != [] { FirstUnusedIsUnused(ledger, random[1..], tries - 1); }
  }

  lemma DeleteEffect(o: Oracle, c: Config, s: Store, q: DeleteRequest) returns (e: Effect)
    requires Sound(s)
    ensures HasEffect(s, DeleteNext(o, c, s, q), e)
    ensures !e.Wrote? && (e.Quiet? ==> DeleteNext(o, c, s, q).tombs == s.tombs)
    ensures e.Erased? <==> DeleteVerdict(o, s, q).Commit?
  {
    NamedIs(s.heads, q.path);
    e := DeleteApplied(c, s, q, DeleteVerdict(o, s, q));
  }

  lemma DeleteApplied(c: Config, s: Store, q: DeleteRequest, verdict: Verdict) returns (e: Effect)
    requires LogDense(s)
    requires verdict.Commit? ==> verdict.head.fileId in s.heads && s.heads[verdict.head.fileId] == verdict.head
    ensures HasEffect(s, DeleteApply(c, s, q, verdict), e)
    ensures !e.Wrote? && (e.Quiet? ==> DeleteApply(c, s, q, verdict).tombs == s.tombs)
    ensures e.Erased? <==> verdict.Commit?
    ensures e.Erased? ==> e.c.fileId == verdict.head.fileId && e.c.operationId == q.client.operationId
  {
    AfterNothing(s);
    e := Quiet;
    if verdict.Commit? {
      var h := verdict.head;
      e := Erased(TombstoneOf(c, s, h, q.now), DeleteApply(c, s, q, verdict).log[|s.log|]);
    }
  }

  /** Rewriting a live object in place: its name, its keys, its metadata. */
  lemma TouchIsWrite(s: Store, s': Store, h: Head, op: string, now: int) returns (e: Effect)
    requires LifeCycle(s) && RevisionFollows(s, Touched, h) && UniqueAllows(s.heads, h)
    requires s' == Publish(s, h, Upsert, op, now).(journal := s'.journal)
    ensures e.Wrote? && e.kind == Touched && e.h == h && e.c.operationId == op && IsWrite(s, s', Touched, h, e.c)
  {
    e := Wrote(Touched, h, s'.log[|s.log|]);
    assert s'.ledger == s.ledger[h.fileId := s.ledger[h.fileId]];
    assert s'.tombs == s.tombs == s.tombs - {h.fileId};
  }

  lemma RenameEffect(o: Oracle, s: Store, q: RenameRequest) returns (e: Effect)
    requires Sound(s)
    ensures HasEffect(s, RenameNext(o, s, q), e)
    ensures e.Wrote? ==> e.kind == Touched && e.c.operationId == q.client.operationId
    ensures e.Wrote? ==> !Logged(s.log, e.h.fileId, e.c.operationId)
    ensures e.Wrote? ==> RenameVerdict(o, s, q) == Commit(e.h)
    ensures !e.Erased? && (e.Quiet? ==> RenameNext(o, s, q).tombs == s.tombs)
  {
    if RenameVerdict(o, s, q).Commit? { RenameFollows(o, s, q); }
    e := RenameApplied(s, q, RenameVerdict(o, s, q));
  }

  lemma RenameFollows(o: Oracle, s: Store, q: RenameRequest)
    requires Sound(s) && RenameVerdict(o, s, q).Commit?
    ensures RevisionFollows(s, Touched, RenameVerdict(o, s, q).head)
    ensures !Logged(s.log, RenameVerdict(o, s, q).head.fileId, q.client.operationId)
  {
    NamedIs(s.heads, q.from);
  }

  lemma RenameApplied(s: Store, q: RenameRequest, verdict: Verdict) returns (e: Effect)
    requires Sound(s)
    requires verdict.Commit? ==> RevisionFollows(s, Touched, verdict.head)
    ensures HasEffect(s, RenameApply(s, q, verdict), e)
    ensures e.Wrote? ==> e.kind == Touched && e.c.operationId == q.client.operationId && verdict == Commit(e.h)
    ensures !e.Erased? && (e.Quiet? ==> RenameApply(s, q, verdict).tombs == s.tombs)
  {
    AfterNothing(s);
    e := Quiet;
    if verdict.Commit? && UniqueAllows(s.heads, verdict.head) {
      e := TouchIsWrite(s, RenameApply(s, q, verdict), verdict.head, q.client.operationId, q.now);
    }
  }

  lemma RestoreEffect(o: Oracle, c: Config, s: Store, q: RestoreRequest) returns (e: Effect)
    requires Sound(s)
    ensures HasEffect(s, RestoreNext(o, c, s, q), e)
    ensures e.Wrote? ==> e.kind == Revived && e.h.fileId == q.fileId && e.c.operationId == q.client.operationId
    ensures e.Wrote? ==> !Logged(s.log, e.h.fileId, e.c.operationId)
    ensures e.Wrote? ==> RestoreVerdict(o, s, q) == Commit(e.h)
    ensures !e.Erased? && (e.Quiet? ==> RestoreNext(o, c, s, q).tombs == s.tombs)
  {
    e := RestoreApplied(c, s, q, RestoreVerdict(o, s, q));
  }

  lemma RestoreIsWrite(c: Config, s: Store, q: RestoreRequest, h: Head)
    requires RevisionFollows(s, Revived, h) && UniqueAllows(s.heads, h)
    ensures var s' := RestoreApply(c, s, q, Commit(h));
            |s'.log| == |s.log| + 1 && s'.log[|s.log|].operationId == q.client.operationId &&
              IsWrite(s, s', Revived, h, s'.log[|s.log|])
  {
  }

  lemma RestoreApplied(c: Config, s: Store, q: RestoreRequest, verdict: Verdict) returns (e: Effect)
    requires LogDense(s)
    requires verdict.Commit? ==> RevisionFollows(s, Revived, verdict.head)
    ensures HasEffect(s, RestoreApply(c, s, q, verdict), e)
    ensures e.Wrote? ==> e.kind == Revived && verdict == Commit(e.h) && e.c.operationId == q.client.operationId
    ensures !e.Erased? && (e.Quiet? ==> RestoreApply(c, s, q, verdict).tombs == s.tombs)
  {
    AfterNothing(s);
    e := Quiet;
    if verdict.Commit? && UniqueAllows(s.heads, verdict.head) {
      RestoreIsWrite(c, s, q, verdict.head);
      e := Wrote(Revived, verdict.head, RestoreApply(c, s, q, verdict).log[|s.log|]);
    }
  }

  lemma MigrateObjectEffect(s: Store, name: string, metaEnc: string, canonicalHash: string, device: string, now: int)
    returns (e: Effect)
    requires Sound(s)
    ensures HasEffect(s, MigrateObjectNext(s, name, metaEnc, canonicalHash, device, now), e)
    ensures e.Wrote? ==> e.kind == Touched && e.c.operationId == ""
    ensures e.Wrote? ==> MigrateObjectVerdict(s, name, metaEnc, canonicalHash, device, now) == Commit(e.h)
    ensures !e.Erased? && (e.Quiet? ==>
              MigrateObjectNext(s, name, metaEnc, canonicalHash, device, now).tombs == s.tombs)
  {
    NamedIs(s.heads, name);
    e := MigrateObjectApplied(s, Named(s.heads, name), now,
      MigrateObjectVerdict(s, name, metaEnc, canonicalHash, device, now));
  }

  lemma MigrateObjectApplied(s: Store, cur: Option<Head>, now: int, verdict: Verdict) returns (e: Effect)
    requires Sound(s)
    requires verdict.Commit? ==> RevisionFollows(s, Touched, verdict.head)
    ensures HasEffect(s, MigrateObjectApply(s, cur, now, verdict), e)
    ensures e.Wrote? ==> e.kind == Touched && e.c.operationId == "" && verdict == Commit(e.h)
    ensures !e.Erased? && (e.Quiet? ==> MigrateObjectApply(s, cur, now, verdict).tombs == s.tombs)
  {
    AfterNothing(s);
    e := Quiet;
    if verdict.Commit? && UniqueAllows(s.heads, verdict.head) {
      e := TouchIsWrite(s, MigrateObjectApply(s, cur, now, verdict), verdict.head, "", now);
    }
  }

  /** Where trimming stops: nowhere, or inside the log, leaving at most as much as is allowed. */
  lemma TrimPointInLog(c: Config, s: Store, now: int)
    requires LogDense(s)
    ensures var upTo := TrimPoint(c, s, now);
            (upTo == 0 || s.repo.minRetained < upTo <= s.repo.head) &&
            (c.changesMax > 0 && |s.log| > c.changesMax ==> s.repo.head - c.changesMax <= upTo)
  {
    LastBeforeIsInLog(s.log, now - c.changesDays * 86400);
  }

  lemma TrimmedLog(c: Config, s: Store, now: int)
    requires LogDense(s)
    ensures var s' := TrimLogNext(c, s, now);
            s' == s.(log := s'.log, repo := s.repo.(minRetained := s'.repo.minRetained)) &&
            s.repo.minRetained <= s'.repo.minRetained <= s.repo.head && s'.log == After(s.log, s'.repo.minRetained)
  {
    AfterNothing(s);
    TrimPointInLog(c, s, now);
  }

  /** Trimming gives up a prefix of the log and moves the watermark to its end. */
  lemma TrimLogIsQuiet(c: Config, s: Store, now: int)
    requires LogDense(s)
    ensures IsQuiet(s, TrimLogNext(c, s, now))
  {
    TrimmedLog(c, s, now);
  }

  lemma TrimLogLeaves(c: Config, s: Store, now: int)
    requires LogDense(s) && c.changesMax > 0
    ensures |TrimLogNext(c, s, now).log| <= c.changesMax
  {
    TrimPointInLog(c, s, now);
    TrimmedLog(c, s, now);
    AfterDense(s.log, s.repo.minRetained, TrimLogNext(c, s, now).repo.minRetained);
  }

  lemma {:induction false} LastBeforeIsInLog(log: seq<Change>, cutoff: int)
    ensures LastBefore(log, cutoff) == 0 || exists i :: 0 <= i < |log| && log[i].sequence == LastBefore(log, cutoff)
    ensures 0 <= LastBefore(log, cutoff)
  {
    if log != [] {
      LastBeforeIsInLog(log[..|log| - 1], cutoff);
      assert forall i :: 0 <= i < |log| - 1 ==> log[..|log| - 1][i] == log[i];
    }
  }

  /** Only a purge removes tombstones quietly, and only a migration renames one. */
  ghost predicate KeepsTombs(step: Step, s: Store, s': Store) {
    if step.Purge? then forall f :: f in s'.tombs ==> f in s.tombs && s'.tombs[f] == s.tombs[f]
    else if step.MigrateTombstone? then s'.tombs.Keys == s.tombs.Keys
    else s'.tombs == s.tombs
  }

  /** A step that leaves the object tables and the log alone. */
  ghost predicate OnlyScalars(s: Store, s': Store) {
    s' == s.(repo := s'.repo, journal := s'.journal, devices := s'.devices) &&
    s'.repo.head == s.repo.head && s'.repo.minRetained == s.repo.minRetained
  }

  lemma ScalarsAreQuiet(s: Store, s': Store)
    requires LogDense(s) && OnlyScalars(s, s')
    ensures IsQuiet(s, s')
  {
    AfterNothing(s);
  }

  lemma BeginMovesScalars(s: Store, device: string, newId: string, now: int, missed: set<JournalKey>)
    ensures OnlyScalars(s, BeginNext(s, device, newId, now, missed))
  {
  }

  lemma RenewalMovesScalars(s: Store, device: string, now: int)
    ensures OnlyScalars(s, RenewLeaseNext(s, device, now))
  {
  }

  lemma VerifyMovesScalars(s: Store, device: string)
    ensures OnlyScalars(s, VerifyNext(s, device))
  {
  }

  lemma MigrationMovesScalars(s: Store, step: Step)
    requires MovesMigration(step)
    ensures OnlyScalars(s, AfterMigrationMove(s, step))
  {
    match step
    case Begin(device, newId, now, missed) => BeginMovesScalars(s, device, newId, now, missed);
    case Takeover(id, device, now) =>
    case RenewLease(device, now) => RenewalMovesScalars(s, device, now);
    case ExpireLease(now) =>
    case Verify(device) => VerifyMovesScalars(s, device);
    case Abort =>
  }

  lemma AbortContentMovesScalars(s: Store)
    ensures OnlyScalars(s, AbortContentNext(s))
  {
  }

  lemma UpgradeMovesScalars(s: Store)
    ensures OnlyScalars(s, UpgradeEnvelopeNext(s))
  {
  }

  lemma OtherMovesScalars(s: Store, step: Step)
    requires MovesOther(step)
    ensures OnlyScalars(s, AfterOther(s, step))
  {
    match step
    case BeginContent =>
    case AbortContent => AbortContentMovesScalars(s);
    case CompleteContent =>
    case UpgradeEnvelope => UpgradeMovesScalars(s);
    case RotateKey =>
    case RotateRepo(_) =>
    case AddDevice(_) =>
    case RevokeDevice(_) =>
    case Ack(device, sequence) =>
  }

  lemma ScalarSteps(o: Oracle, c: Config, s: Store, step: Step)
    requires !WritesObjects(step) && !Sweeps(step)
    ensures OnlyScalars(s, Next(o, c, s, step))
  {
    if MovesMigration(step) { MigrationMovesScalars(s, step); } else { OtherMovesScalars(s, step); }
  }

  /** Completion empties the log up to the head and changes no object. */
  lemma CompletionOf(s: Store, id: string, device: string, shares: nat, sentinels: nat, erasure: Erasure)
    requires 0 <= s.repo.minRetained <= s.repo.head
    ensures var s' := CompleteNext(s, id, device, shares, sentinels, erasure);
            s' == s || (s' == s.(log := [], repo := s'.repo, journal := s'.journal) &&
              s'.repo.head == s.repo.head == s'.repo.minRetained)
  {
  }

  lemma EmptiedIsQuiet(s: Store, s': Store)
    requires LogDense(s) && s' == s.(log := [], repo := s'.repo, journal := s'.journal) &&
             s'.repo.head == s.repo.head == s'.repo.minRetained
    ensures IsQuiet(s, s')
  {
    AfterDense(s.log, s.repo.minRetained, s.repo.head);
  }

  lemma CompleteIsQuiet(s: Store, id: string, device: string, shares: nat, sentinels: nat, erasure: Erasure)
    requires LogDense(s)
    ensures IsQuiet(s, CompleteNext(s, id, device, shares, sentinels, erasure))
  {
    CompletionOf(s, id, device, shares, sentinels, erasure);
    var s' := CompleteNext(s, id, device, shares, sentinels, erasure);
    if s' == s { ScalarsAreQuiet(s, s); } else { EmptiedIsQuiet(s, s'); }
  }

  lemma ConversionOf(s: Store, fileId: string, canonicalHash: string, device: string)
    ensures var s' := MigrateTombstoneNext(s, fileId, canonicalHash, device);
            s' == s.(tombs := s'.tombs, journal := s'.journal)
  {
  }

  lemma ConversionKeepsTombs(s: Store, fileId: string, canonicalHash: string, device: string)
    ensures var tombs := MigrateTombstoneNext(s, fileId, canonicalHash, device).tombs;
            TombsKept(s.tombs, tombs) && tombs.Keys == s.tombs.Keys
  {
  }

  lemma MigrateTombstoneIsQuiet(s: Store, fileId: string, canonicalHash: string, device: string)
    requires LogDense(s)
    ensures IsQuiet(s, MigrateTombstoneNext(s, fileId, canonicalHash, device))
  {
    AfterNothing(s);
    ConversionOf(s, fileId, canonicalHash, device);
    ConversionKeepsTombs(s, fileId, canonicalHash, device);
  }

  /** Rows and files go; no row changes. */
  ghost predicate OnlyDrops(s: Store, s': Store) {
    s' == s.(tombs := s'.tombs, versions := s'.versions, blobs := s'.blobs) && VersionsKept(s.versions, s'.versions) &&
    forall f :: f in s'.tombs ==> f in s.tombs && s'.tombs[f] == s.tombs[f]
  }

  lemma DropIsQuiet(s: Store, s': Store)
    requires LogDense(s) && OnlyDrops(s, s')
    ensures IsQuiet(s, s')
  {
    AfterNothing(s);
  }

  lemma PruneOnlyDrops(s: Store, keys: set<VersionKey>)
    ensures OnlyDrops(s, PruneNext(s, keys)) && PruneNext(s, keys).tombs == s.tombs
  {
  }

  lemma DamageOnlyDrops(s: Store, blob: string, content: bytes)
    ensures OnlyDrops(s, DamageNext(s, blob, content)) && DamageNext(s, blob, content).tombs == s.tombs
  {
  }

  predicate Drops(step: Step) {
    step.Purge? || step.Prune? || step.Collect? || step.Damage?
  }

  lemma SweepDrops(c: Config, s: Store, step: Step)
    requires Drops(step)
    ensures OnlyDrops(s, AfterSweep(c, s, step)) && KeepsTombs(step, s, AfterSweep(c, s, step))
  {
    match step
    case Purge(now) =>
    case Prune(keys) => PruneOnlyDrops(s, keys);
    case Collect(blobs) =>
    case Damage(blob, content) => DamageOnlyDrops(s, blob, content);
  }

  lemma SweepIsQuiet(c: Config, s: Store, step: Step)
    requires LogDense(s) && Sweeps(step)
    ensures IsQuiet(s, AfterSweep(c, s, step))
  {
    if Drops(step) {
      SweepDrops(c, s, step);
      DropIsQuiet(s, AfterSweep(c, s, step));
    } else {
      match step
      case TrimLog(now) => TrimLogIsQuiet(c, s, now);
      case Complete(id, device, shares, sentinels, erasure) => CompleteIsQuiet(s, id, device, shares, sentinels,
          erasure);
      case MigrateTombstone(fileId, canonicalHash, device) => MigrateTombstoneIsQuiet(s, fileId, canonicalHash, device);
    }
  }

  lemma SweepKeepsTombs(c: Config, s: Store, step: Step)
    requires LogDense(s) && Sweeps(step)
    ensures KeepsTombs(step, s, AfterSweep(c, s, step))
  {
    if Drops(step) {
      SweepDrops(c, s, step);
    } else {
      match step
      case MigrateTombstone(fileId, canonicalHash, device) => ConversionKeepsTombs(s, fileId, canonicalHash, device);
      case Complete(id, device, shares, sentinels, erasure) => CompletionOf(s, id, device, shares, sentinels, erasure);
      case TrimLog(now) => TrimmedLog(c, s, now);
    }
  }

  lemma QuietEffect(o: Oracle, c: Config, s: Store, step: Step)
    requires LogDense(s) && !WritesObjects(step)
    ensures IsQuiet(s, Next(o, c, s, step))
  {
    if Sweeps(step) {
      SweepIsQuiet(c, s, step);
    } else {
      ScalarSteps(o, c, s, step);
      ScalarsAreQuiet(s, Next(o, c, s, step));
    }
  }

  lemma QuietKeepsTombs(o: Oracle, c: Config, s: Store, step: Step)
    requires LogDense(s) && !WritesObjects(step)
    ensures KeepsTombs(step, s, Next(o, c, s, step))
  {
    if Sweeps(step) { SweepKeepsTombs(c, s, step); } else { ScalarSteps(o, c, s, step); }
  }

  predicate KindOf(step: Step, kind: WriteKind) {
    match kind
    case Created => step.Upload?
    case Updated => step.Upload?
    case Touched => step.Rename? || step.MigrateObject?
    case Revived => step.RestoreObject?
  }

  function OperationOf(step: Step): string {
    match step
    case Upload(q) => q.client.operationId
    case Rename(q) => q.client.operationId
    case RestoreObject(q) => q.client.operationId
    case _ => ""
  }

  /** What is known of the effect of a step that writes objects. */
  ghost predicate WriteFits(o: Oracle, s: Store, step: Step, s': Store, e: Effect) {
    HasEffect(s, s', e) && (e.Erased? ==> step.DeleteObject?) && (e.Quiet? ==> s'.tombs == s.tombs) &&
    (e.Wrote? ==>
      KindOf(step, e.kind) && e.c.operationId == OperationOf(step) &&
      VerdictOf(o, s, step) == Commit(e.h)) &&
    (e.Wrote? && step.RestoreObject? ==> e.h.fileId == step.restore.fileId) &&
    (e.Wrote? && e.kind != Created ==> !Logged(s.log, e.h.fileId, e.c.operationId))
  }

  lemma RenameStepEffect(o: Oracle, c: Config, s: Store, step: Step) returns (e: Effect)
    requires Sound(s) && step.Rename?
    ensures WriteFits(o, s, step, AfterWrite(o, c, s, step), e)
  {
    e := RenameEffect(o, s, step.rename);
  }

  lemma MigrationStepEffect(o: Oracle, c: Config, s: Store, step: Step) returns (e: Effect)
    requires Sound(s) && step.MigrateObject?
    ensures WriteFits(o, s, step, AfterWrite(o, c, s, step), e)
  {
    e := MigrateObjectEffect(s, step.name, step.metaEnc, step.canonicalHash, step.device, step.now);
  }

  lemma ContentEffect(o: Oracle, c: Config, s: Store, step: Step) returns (e: Effect)
    requires Sound(s) && (step.Upload? || step.DeleteObject? || step.RestoreObject?)
    ensures WriteFits(o, s, step, AfterWrite(o, c, s, step), e)
  {
    match step
    case Upload(q) => e := UploadEffect(o, c, s, q);
    case DeleteObject(q) => e := DeleteEffect(o, c, s, q);
    case RestoreObject(q) => e := RestoreEffect(o, c, s, q);
  }

  lemma WriteEffect(o: Oracle, c: Config, s: Store, step: Step) returns (e: Effect)
    requires Sound(s) && WritesObjects(step)
    ensures WriteFits(o, s, step, AfterWrite(o, c, s, step), e)
  {
    if step.Rename? { e := RenameStepEffect(o, c, s, step); }
    else if step.MigrateObject? { e := MigrationStepEffect(o, c, s, step); }
    else { e := ContentEffect(o, c, s, step); }
  }

  lemma StepEffect(o: Oracle, c: Config, s: Store, step: Step) returns (e: Effect)
    requires Sound(s)
    ensures HasEffect(s, Next(o, c, s, step), e)
    ensures e.Wrote? ==> KindOf(step, e.kind) && e.c.operationId == OperationOf(step)
    ensures e.Wrote? && step.RestoreObject? ==> e.h.fileId == step.restore.fileId
    ensures e.Erased? ==> step.DeleteObject?
    ensures e.Wrote? && e.kind != Created ==> !Logged(s.log, e.h.fileId, e.c.operationId)
    ensures e.Wrote? ==> VerdictOf(o, s, step) == Commit(e.h)
    ensures e.Quiet? ==> KeepsTombs(step, s, Next(o, c, s, step))
  {
    if WritesObjects(step) {
      e := WriteEffect(o, c, s, step);
    } else {
      e := Quiet;
      QuietEffect(o, c, s, step);
      QuietKeepsTombs(o, c, s, step);
    }
  }
}
