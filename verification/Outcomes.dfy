/** What a committed request leaves of its object, field by field. */
module Outcomes {
  import opened Bytes
  import opened Envelope
  import opened Options
  import opened Tables
  import opened Requests
  import opened Steps
  import opened Effects
  import opened Runs

  // ---------- an upload ----------

  /** The header's generation and key epoch, where the content has a readable header. */
  predicate FromHeader(body: bytes, h: Head, before: int) {
    h.contentGeneration == (if ParseHeader(body).Some? then ParseHeader(body).value.generation else before) &&
    h.keyEpoch == (if ParseHeader(body).Some? then ParseHeader(body).value.keyEpoch else 0)
  }

  /** The head has the uploaded content. */
  predicate HasUploaded(o: Oracle, q: UploadRequest, h: Head, generation: int) {
    h.contentHash == o.hash(q.body) == q.claimedHash &&
    h.blobId == (if o.hash(q.body) == "" then "" else o.blobName(o.hash(q.body))) && h.size == |q.body| &&
    h.mtime == (if q.mtime > 0 then q.mtime else q.nowMillis) && h.envelope == EnvelopeVersion(q.body) &&
    FromHeader(q.body, h, generation) && h.pseudonym == q.path && h.updatedAt == q.now &&
    h.revision == q.baseRevision + 1
  }

  /** A committed upload over a live object of the name takes it on from the revision it was made
      against: a new content, and a new key if one is given; all else stays. */
  lemma UploadOverLeaves(o: Oracle, c: Config, s: Store, q: UploadRequest, cur: Head)
    requires Sound(s) && UploadNext(o, c, s, q).repo.head > s.repo.head
    requires cur.fileId in s.heads && s.heads[cur.fileId] == cur && cur.pseudonym == q.path
    ensures cur.revision == q.baseRevision
    ensures var s' := UploadNext(o, c, s, q);
            cur.fileId in s'.heads && var h := s'.heads[cur.fileId];
            s'.heads == s.heads[cur.fileId := h] && HasUploaded(o, q, h, cur.contentGeneration) &&
            OnlyContent(cur, h) && h.canonicalKey == if q.canonicalHash != "" then "h:" + q.canonicalHash
              else cur.canonicalKey
  {
    NamedIs(s.heads, q.path);
    assert Named(s.heads, q.path) == Some(cur);
    OverIsCommitted(o, s, q, cur);
    UploadIsApplied(o, c, s, q, UploadVerdict(o, s, q));
  }

  lemma OverIsCommitted(o: Oracle, s: Store, q: UploadRequest, cur: Head)
    requires Named(s.heads, q.path) == Some(cur) && cur.pseudonym == q.path && UploadVerdict(o, s, q).Commit?
    ensures cur.revision == q.baseRevision
    ensures var h := UploadVerdict(o, s, q).head;
            HasUploaded(o, q, h, cur.contentGeneration) && OnlyContent(cur, h) &&
            h.canonicalKey == if q.canonicalHash != "" then "h:" + q.canonicalHash else cur.canonicalKey
  {
  }

  lemma UploadIsApplied(o: Oracle, c: Config, s: Store, q: UploadRequest, verdict: Verdict)
    requires UploadApply(o, c, s, q, verdict).repo.head > s.repo.head
    ensures verdict.Commit? &&
            UploadApply(o, c, s, q, verdict).heads == s.heads[verdict.head.fileId := verdict.head] &&
            UploadApply(o, c, s, q, verdict).ledger ==
              PutLedger(s, verdict.head.fileId, true, verdict.head.createdAt, 0).ledger
  {
    var blobs := StoreBlob(o, c.strictVerify, s.blobs, verdict.head.blobId, q.body, q.fault, q.quarantineFull).1;
    UploadTables(o, c, s.(blobs := blobs), verdict.head, q);
  }

  /** A committed upload to a free name makes one new object at revision 1, of an id no object had:
      the given one, if any, or in the encrypted state the name.  It was made against nothing, and
      no deletion and no live object stood in the way. */
  lemma UploadNewLeaves(o: Oracle, c: Config, s: Store, q: UploadRequest) returns (h: Head)
    requires Sound(s) && UploadNext(o, c, s, q).repo.head > s.repo.head
    requires forall f :: f in s.heads ==> s.heads[f].pseudonym != q.path
    ensures UploadNext(o, c, s, q).heads == s.heads[h.fileId := h] && h.fileId !in s.ledger
    ensures q.baseRevision == 0 && h.encryptedMetadata == q.metaEnc && h.createdAt == q.now &&
            h.metaGeneration == (if q.metaEnc == "" then 0 else 1) && HasUploaded(o, q, h, 0)
    ensures h.canonicalKey == if q.canonicalHash != "" then "h:" + q.canonicalHash else o.canonical(q.path)
    ensures if ByIdOnly(s.repo) then h.fileId == q.path
            else if q.clientFileId != "" then h.fileId == q.clientFileId else h.fileId in q.freshIds
    ensures forall f :: f in s.tombs ==>
              s.tombs[f].lastPseudonym != q.path &&
              (h.canonicalKey != "" ==> s.tombs[f].canonicalKey != h.canonicalKey)
    ensures forall f :: f in s.heads && h.canonicalKey != "" ==> s.heads[f].canonicalKey != h.canonicalKey
  {
    NamedIs(s.heads, q.path);
    UploadIsApplied(o, c, s, q, UploadVerdict(o, s, q));
    h := UploadVerdict(o, s, q).head;
    NewIsCommitted(o, s, q);
  }

  lemma {:induction false} FirstUnusedIsRandom(ledger: map<string, LedgerRow>, random: seq<string>, tries: nat)
    ensures FirstUnused(ledger, random, tries).Some? ==>
              FirstUnused(ledger, random, tries).value in random && FirstUnused(ledger, random, tries).value !in ledger
  {
    if tries > 0 && random != [] { FirstUnusedIsRandom(ledger, random[1..], tries - 1); }
  }

  lemma NewIsCommitted(o: Oracle, s: Store, q: UploadRequest)
    requires Named(s.heads, q.path).None? && UploadVerdict(o, s, q).Commit?
    ensures var h := UploadVerdict(o, s, q).head;
            h.fileId !in s.ledger && q.baseRevision == 0 && h.encryptedMetadata == q.metaEnc &&
            h.createdAt == q.now && h.metaGeneration == (if q.metaEnc == "" then 0 else 1) &&
            HasUploaded(o, q, h, 0) &&
            h.canonicalKey == (if q.canonicalHash != "" then "h:" + q.canonicalHash else o.canonical(q.path)) &&
            (if ByIdOnly(s.repo) then h.fileId == q.path
             else if q.clientFileId != "" then h.fileId == q.clientFileId else h.fileId in q.freshIds) &&
            !Barred(s.tombs, q.path, h.canonicalKey) && !Collides(s.heads, h.canonicalKey, "")
  {
    FirstUnusedIsRandom(s.ledger, q.freshIds, 4);
  }

  // ---------- a rename, and a move of the migration ----------

  /** A committed rename finds the object under the old name at the given metadata generation, and
      leaves it under the new one, a generation on, with the metadata that came along or else the
      metadata it had; its content is what it was. */
  lemma RenameLeaves(o: Oracle, s: Store, q: RenameRequest) returns (h: Head)
    requires Sound(s) && RenameNext(o, s, q).repo.head > s.repo.head
    ensures h.fileId in s.heads && s.heads[h.fileId] == h && h.pseudonym == q.from &&
            h.metaGeneration == q.baseMetaGeneration
    ensures var s' := RenameNext(o, s, q);
            s'.heads == s.heads[h.fileId := h.(pseudonym := q.to, metaGeneration := h.metaGeneration + 1,
              encryptedMetadata := if q.metaEnc != "" then q.metaEnc else h.encryptedMetadata,
              canonicalKey := if q.canonicalHash != "" then "h:" + q.canonicalHash else o.canonical(q.to),
              updatedAt := q.now)]
  {
    NamedIs(s.heads, q.from);
    h := Named(s.heads, q.from).value;
  }

  /** A committed move of the migration finds the object under the given name, and leaves it under its
      id, with the given metadata and the given key; its content is what it was. */
  lemma MigrationLeaves(s: Store, name: string, metaEnc: string, hash: string, device: string, now: int)
    returns (h: Head)
    requires Sound(s) && MigrateObjectNext(s, name, metaEnc, hash, device, now).repo.head > s.repo.head
    ensures h.fileId in s.heads && s.heads[h.fileId] == h && h.pseudonym == name && metaEnc != ""
    ensures var s' := MigrateObjectNext(s, name, metaEnc, hash, device, now);
            s'.heads == s.heads[h.fileId := h.(pseudonym := h.fileId, encryptedMetadata := metaEnc,
              canonicalKey := "h:" + hash, metaGeneration := if h.metaGeneration < 1 then 1 else h.metaGeneration,
              updatedAt := now)]
  {
    NamedIs(s.heads, name);
    var verdict := MigrateObjectVerdict(s, name, metaEnc, hash, device, now);
    MigrationIsApplied(s, Named(s.heads, name), now, verdict);
    h := Named(s.heads, name).value;
  }

  lemma MigrationIsApplied(s: Store, cur: Option<Head>, now: int, verdict: Verdict)
    requires MigrateObjectApply(s, cur, now, verdict).repo.head > s.repo.head
    ensures verdict.Commit? &&
            MigrateObjectApply(s, cur, now, verdict).heads == s.heads[verdict.head.fileId := verdict.head]
  {
  }

  // ---------- a delete and a restore ----------

  /** A committed delete takes the live object of the name at the given revision; the deletion goes by
      its names, and is kept for the days configured, or for ever when there are none. */
  lemma DeleteLeaves(o: Oracle, c: Config, s: Store, q: DeleteRequest, h: Head)
    requires Sound(s) && DeleteNext(o, c, s, q).repo.head > s.repo.head
    requires h.fileId in s.heads && s.heads[h.fileId] == h && h.pseudonym == q.path
    ensures h.revision == q.baseRevision
    ensures var s' := DeleteNext(o, c, s, q);
            s'.heads == s.heads - {h.fileId} && h.fileId in s'.tombs && var t := s'.tombs[h.fileId];
            s'.tombs == s.tombs[h.fileId := t] && Remembers(t, h) && t.deletedAt == q.now && !t.needsReview &&
            t.deletionSequence == s'.repo.head &&
            t.retainUntil == (if c.tombstoneDays > 0 then q.now + c.tombstoneDays * 86400 else 0)
    ensures var s' := DeleteNext(o, c, s, q);
            h.fileId in s'.ledger && !s'.ledger[h.fileId].live && s'.ledger[h.fileId].deletedAt == q.now
  {
    NamedIs(s.heads, q.path);
    assert Named(s.heads, q.path) == Some(h);
    assert DeleteVerdict(o, s, q) == Commit(h);
    DeleteIsApplied(c, s, q, h);
  }

  lemma DeleteIsApplied(c: Config, s: Store, q: DeleteRequest, h: Head)
    ensures var s' := DeleteApply(c, s, q, Commit(h));
            s'.heads == s.heads - {h.fileId} && s'.tombs == s.tombs[h.fileId := TombstoneOf(c, s, h, q.now)] &&
            s'.ledger == PutLedger(s, h.fileId, false, h.createdAt, q.now).ledger &&
            s'.repo.head == s.repo.head + 1
  {
  }

  /** A committed restore brings the object of exactly that deletion back, under the given name, with
      the content the deletion remembers. */
  lemma RestoreLeaves(o: Oracle, c: Config, s: Store, q: RestoreRequest)
    requires Sound(s) && RestoreNext(o, c, s, q).repo.head > s.repo.head
    ensures q.fileId in s.tombs && s.tombs[q.fileId].deletionRevision == q.expectedRevision
    ensures var s', t := RestoreNext(o, c, s, q), s.tombs[q.fileId];
            q.fileId in s'.heads && var h := s'.heads[q.fileId];
            s'.heads == s.heads[q.fileId := h] && s'.tombs == s.tombs - {q.fileId} &&
            IsRestored(o, s, q, t, h)
  {
    var e := RestoreEffect(o, c, s, q);
    RestoreIsCommitted(o, s, q);
  }

  predicate IsRestored(o: Oracle, s: Store, q: RestoreRequest, t: Tombstone, h: Head) {
    h.fileId == q.fileId && h.revision == t.deletionRevision + 1 && h.pseudonym == q.pseudonym &&
    h.encryptedMetadata == q.metaEnc && h.contentGeneration == q.contentGeneration && GoesBack(t, h) &&
    h.canonicalKey == (if q.canonicalHash != "" then "h:" + q.canonicalHash else o.canonical(q.pseudonym)) &&
    h.blobId == (if t.priorContentHash == "" then "" else o.blobName(t.priorContentHash)) &&
    h.createdAt == q.now && h.updatedAt == q.now && h.mtime == q.now * 1000 &&
    (if h.blobId != "" && h.blobId in s.blobs
     then h.size == |s.blobs[h.blobId]| && h.envelope == EnvelopeVersion(s.blobs[h.blobId])
     else h.size == 0 && h.envelope == 0)
  }

  lemma RestoreIsCommitted(o: Oracle, s: Store, q: RestoreRequest)
    requires RestoreVerdict(o, s, q).Commit?
    ensures q.fileId in s.tombs && s.tombs[q.fileId].deletionRevision == q.expectedRevision &&
            IsRestored(o, s, q, s.tombs[q.fileId], RestoreVerdict(o, s, q).head)
  {
  }

  // ---------- what the log tells of a request ----------

  /** What a step says of itself in its change. */
  predicate Tells(step: Step, change: Change) {
    match step
    case Upload(q) => change.action == Upsert && change.createdAt == q.now &&
        change.operationId == q.client.operationId
    case DeleteObject(q) => change.action == Delete && change.createdAt == q.now &&
        change.operationId == q.client.operationId
    case Rename(q) => change.action == Upsert && change.createdAt == q.now &&
        change.operationId == q.client.operationId
    case RestoreObject(q) => change.action == Restore && change.createdAt == q.now &&
        change.operationId == q.client.operationId
    case MigrateObject(_, _, _, _, now) => change.action == Upsert && change.createdAt == now &&
        change.operationId == ""
    case _ => false
  }

  ghost predicate LogTells(s: Store, s': Store, step: Step) {
    s'.repo.head > s.repo.head ==> s'.log != [] && Tells(step, s'.log[|s'.log| - 1])
  }

  lemma UploadTells(o: Oracle, c: Config, s: Store, q: UploadRequest, verdict: Verdict)
    ensures LogTells(s, UploadApply(o, c, s, q, verdict), Upload(q))
  {
    if verdict.Commit? {
      var blobs := StoreBlob(o, c.strictVerify, s.blobs, verdict.head.blobId, q.body, q.fault, q.quarantineFull).1;
      UploadPublishes(o, c, s.(blobs := blobs), verdict.head, q);
    }
  }

  lemma DeleteTells(c: Config, s: Store, q: DeleteRequest, verdict: Verdict)
    ensures LogTells(s, DeleteApply(c, s, q, verdict), DeleteObject(q))
  {
  }

  lemma RestoreTells(c: Config, s: Store, q: RestoreRequest, verdict: Verdict)
    ensures LogTells(s, RestoreApply(c, s, q, verdict), RestoreObject(q))
  {
    if verdict.Commit? { RestoreIsApplied(c, s, q, verdict.head); }
  }

  lemma RestoreIsApplied(c: Config, s: Store, q: RestoreRequest, h: Head)
    ensures var s' := RestoreApply(c, s, q, Commit(h));
            s' == s || (s'.log != [] && Tells(RestoreObject(q), s'.log[|s'.log| - 1]))
  {
  }

  lemma RenameTells(s: Store, q: RenameRequest, verdict: Verdict)
    ensures LogTells(s, RenameApply(s, q, verdict), Rename(q))
  {
  }

  lemma MigrationTells(s: Store, cur: Option<Head>, verdict: Verdict, step: Step)
    requires step.MigrateObject?
    ensures LogTells(s, MigrateObjectApply(s, cur, step.now, verdict), step)
  {
  }

  lemma WriteTells(o: Oracle, c: Config, s: Store, step: Step)
    requires WritesObjects(step)
    ensures LogTells(s, AfterWrite(o, c, s, step), step)
  {
    match step
    case Upload(q) => UploadTells(o, c, s, q, UploadVerdict(o, s, q));
    case DeleteObject(q) => DeleteTells(c, s, q, DeleteVerdict(o, s, q));
    case Rename(q) => RenameTells(s, q, RenameVerdict(o, s, q));
    case RestoreObject(q) => RestoreTells(c, s, q, RestoreVerdict(o, s, q));
    case MigrateObject(name, metaEnc, hash, device, now) =>
      MigrationTells(s, Named(s.heads, name), MigrateObjectVerdict(s, name, metaEnc, hash, device, now), step);
  }

  /** Every committed step is told in the log by its own action, time and operation id. */
  lemma LogTellsOfStep(o: Oracle, c: Config, s: Store, step: Step)
    requires LogDense(s)
    ensures LogTells(s, Next(o, c, s, step), step)
  {
    if WritesObjects(step) { WriteTells(o, c, s, step); } else { QuietEffect(o, c, s, step); }
  }
}
