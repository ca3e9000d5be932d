/** No head and no recorded version ever points at a blob that is not stored. */
module Stored {
  import opened Bytes
  import opened Options
  import opened Tables
  import opened Requests
  import opened Steps
  import opened Effects
  import opened Runs

  ghost predicate AllStored(s: Store) {
    (forall f :: f in s.heads && s.heads[f].blobId != "" ==> s.heads[f].blobId in s.blobs) &&
    (forall k :: k in s.versions && s.versions[k].blobId != "" ==> s.versions[k].blobId in s.blobs)
  }

  lemma DropKeepsStored(s: Store, keys: set<VersionKey>, collect: bool)
    requires AllStored(s)
    ensures AllStored(DropVersions(s, keys, collect))
  {
    var s' := DropVersions(s, keys, collect);
    forall k | k in s'.versions && s'.versions[k].blobId != "" ensures s'.versions[k].blobId in s'.blobs {
      assert Referenced(s.heads, s'.versions, s'.versions[k].blobId);
    }
    forall f | f in s'.heads && s'.heads[f].blobId != "" ensures s'.heads[f].blobId in s'.blobs {
      assert Referenced(s.heads, s'.versions, s'.heads[f].blobId);
    }
  }

  // ---------- uploads ----------

  /** The upload replaces a damaged copy and the replacement never arrives: the old copy is
      already in quarantine. */
  ghost predicate LosesBlob(o: Oracle, c: Config, s: Store, q: UploadRequest) {
    Loses(o, c, s, q, UploadVerdict(o, s, q))
  }

  predicate Loses(o: Oracle, c: Config, s: Store, q: UploadRequest, verdict: Verdict) {
    verdict.Commit? && verdict.head.blobId in s.blobs &&
      Damaged(o, c.strictVerify, s.blobs[verdict.head.blobId], q.body) &&
    (q.fault == RenameFails || (q.fault == BeforeRename && !q.quarantineFull))
  }

  /** An upload, whatever crash or error strikes it, keeps every reference stored, with one
      exception: a failed rename while repairing a blob that something refers to. */
  lemma UploadKeepsStored(o: Oracle, c: Config, s: Store, q: UploadRequest)
    requires AllStored(s)
    ensures AllStored(UploadNext(o, c, s, q)) <==>
              !(LosesBlob(o, c, s, q) && UploadVerdict(o, s, q).head.blobId != "" &&
                Referenced(s.heads, s.versions, UploadVerdict(o, s, q).head.blobId))
  {
    UploadApplyStored(o, c, s, q, UploadVerdict(o, s, q));
  }

  lemma UploadApplyStored(o: Oracle, c: Config, s: Store, q: UploadRequest, verdict: Verdict)
    requires AllStored(s)
    ensures AllStored(UploadApply(o, c, s, q, verdict)) <==>
              !(Loses(o, c, s, q, verdict) && verdict.head.blobId != "" &&
                Referenced(s.heads, s.versions, verdict.head.blobId))
  {
    if verdict.Commit? {
      var h := verdict.head;
      var (stored, blobs) := StoreBlob(o, c.strictVerify, s.blobs, h.blobId, q.body, q.fault, q.quarantineFull);
      if stored {
        StoringKeepsStored(s, blobs, h.blobId, q.body);
        WrittenIsStored(c, s.(blobs := blobs), h, q);
        CommittedIsStored(o, c, s.(blobs := blobs), h, q);
      } else if Loses(o, c, s, q, verdict) {
        LosingBlob(s, h.blobId);
      } else {
        StoringKeepsStored(s, blobs, h.blobId, q.body);
      }
    }
  }

  lemma StoringKeepsStored(s: Store, blobs: map<string, bytes>, blob: string, body: bytes)
    requires AllStored(s) && (blobs == s.blobs || blobs == s.blobs[blob := body] ||
               (blob !in s.blobs && blobs == s.blobs - {blob}))
    ensures AllStored(s.(blobs := blobs))
  {
  }

  lemma LosingBlob(s: Store, blob: string)
    requires AllStored(s)
    ensures AllStored(s.(blobs := s.blobs - {blob})) <==> !(blob != "" && Referenced(s.heads, s.versions, blob))
  {
  }

  lemma WrittenIsStored(c: Config, s: Store, h: Head, q: UploadRequest)
    requires AllStored(s) && h.blobId in s.blobs
    ensures AllStored(UploadWritten(c, s, h, q))
  {
  }

  lemma CommittedIsStored(o: Oracle, c: Config, s: Store, h: Head, q: UploadRequest)
    requires AllStored(UploadWritten(c, s, h, q))
    ensures AllStored(UploadCommitted(o, c, s, h, q))
  {
    var s' := UploadWritten(c, s, h, q);
    var (days, max) := RetentionFor(o, c, s.repo.meta, h.pseudonym);
    DropKeepsStored(s', Expired(s'.versions, h.fileId, q.now, days, max), q.fault != AfterCommit);
  }

  /** An upload that is not committed, whatever struck it, leaves every table as it was.  At
      most the one blob it is about is newly there, or lost in a failed repair. */
  lemma CrashLeavesTables(o: Oracle, c: Config, s: Store, q: UploadRequest)
    requires UploadNext(o, c, s, q).repo.head == s.repo.head
    ensures UploadNext(o, c, s, q) == s.(blobs := UploadNext(o, c, s, q).blobs)
    ensures OneBlobDiffers(o, c, s, q, UploadVerdict(o, s, q), UploadNext(o, c, s, q).blobs)
  {
    CrashApplied(o, c, s, q, UploadVerdict(o, s, q));
    if UploadVerdict(o, s, q).Commit? { StoringChangesOneBlob(o, c, s, q, UploadVerdict(o, s, q)); }
  }

  ghost predicate OneBlobDiffers(o: Oracle, c: Config, s: Store, q: UploadRequest, verdict: Verdict, blobs: map<string,
          bytes>)
  {
    blobs == s.blobs ||
    (verdict.Commit? && blobs == s.blobs[verdict.head.blobId := q.body]) ||
    (Loses(o, c, s, q, verdict) && blobs == s.blobs - {verdict.head.blobId})
  }

  function Storing(o: Oracle, c: Config, s: Store, q: UploadRequest, h: Head): map<string, bytes> {
    StoreBlob(o, c.strictVerify, s.blobs, h.blobId, q.body, q.fault, q.quarantineFull).1
  }

  lemma CrashApplied(o: Oracle, c: Config, s: Store, q: UploadRequest, verdict: Verdict)
    requires UploadApply(o, c, s, q, verdict).repo.head == s.repo.head
    ensures UploadApply(o, c, s, q, verdict) == if verdict.Commit? then s.(blobs := Storing(o, c, s, q, verdict.head))
            else s
  {
    if verdict.Commit? { UploadPublishes(o, c, s.(blobs := Storing(o, c, s, q, verdict.head)), verdict.head, q); }
  }

  lemma StoringChangesOneBlob(o: Oracle, c: Config, s: Store, q: UploadRequest, verdict: Verdict)
    requires verdict.Commit?
    ensures OneBlobDiffers(o, c, s, q, verdict, Storing(o, c, s, q, verdict.head))
  {
    if verdict.head.blobId !in s.blobs { assert s.blobs - {verdict.head.blobId} == s.blobs; }
  }

  // ---------- restores ----------

  /** A restore keeps every reference stored exactly when the content it goes back to is still
      stored; the store does not check. */
  lemma RestoreKeepsStored(o: Oracle, c: Config, s: Store, q: RestoreRequest)
    requires AllStored(s) && RestoreVerdict(o, s, q).Commit? && UniqueAllows(s.heads, RestoreVerdict(o, s, q).head)
    ensures AllStored(RestoreNext(o, c, s, q)) <==>
              s.tombs[q.fileId].priorContentHash == "" || BlobOf(o, s.tombs[q.fileId].priorContentHash) == "" ||
              BlobOf(o, s.tombs[q.fileId].priorContentHash) in s.blobs
  {
    RevivedIsStored(c, s, q, RestoreVerdict(o, s, q).head);
  }

  lemma RevivedIsStored(c: Config, s: Store, q: RestoreRequest, h: Head)
    requires AllStored(s) && UniqueAllows(s.heads, h)
    ensures AllStored(RestoreApply(c, s, q, Commit(h))) <==> h.blobId == "" || h.blobId in s.blobs
  {
    var s' := RestoreApply(c, s, q, Commit(h));
    assert s'.heads == s.heads[h.fileId := h] && s'.heads[h.fileId] == h && s'.blobs == s.blobs;
  }

  /** Without history a deletion leaves nothing that refers to the content, so one round of
      collection makes the next restore dangle. */
  lemma CollectedPriorDangles(o: Oracle, c: Config, s: Store, f: string, q: RestoreRequest)
    requires AllStored(s) && f in s.tombs && q.fileId == f
    requires var blob := BlobOf(o, s.tombs[f].priorContentHash); blob != "" && !Referenced(s.heads, s.versions, blob)
    ensures var s1 := CollectNext(s, {BlobOf(o, s.tombs[f].priorContentHash)});
            RestoreVerdict(o, s1, q).Commit? && UniqueAllows(s1.heads, RestoreVerdict(o, s1, q).head) ==>
              !AllStored(RestoreNext(o, c, s1, q))
  {
    var s1 := CollectNext(s, {BlobOf(o, s.tombs[f].priorContentHash)});
    CollectKeepsStored(s, {BlobOf(o, s.tombs[f].priorContentHash)});
    if RestoreVerdict(o, s1, q).Commit? && UniqueAllows(s1.heads, RestoreVerdict(o, s1, q).head) {
      RestoreKeepsStored(o, c, s1, q);
    }
  }

  // ---------- everything else ----------

  lemma CollectKeepsStored(s: Store, blobs: set<string>)
    requires AllStored(s)
    ensures AllStored(CollectNext(s, blobs))
  {
    var s' := CollectNext(s, blobs);
    assert forall k :: k in s.versions ==> Referenced(s.heads, s.versions, s.versions[k].blobId);
    assert forall f :: f in s.heads ==> Referenced(s.heads, s.versions, s.heads[f].blobId);
  }

  lemma DeleteKeepsStored(o: Oracle, c: Config, s: Store, q: DeleteRequest)
    requires AllStored(s)
    ensures AllStored(DeleteNext(o, c, s, q))
  {
  }

  lemma RenameKeepsStored(o: Oracle, s: Store, q: RenameRequest)
    requires AllStored(s) && NamesUnique(s.heads)
    ensures AllStored(RenameNext(o, s, q))
  {
    NamedIs(s.heads, q.from);
  }

  lemma MigrateObjectKeepsStored(s: Store, name: string, metaEnc: string, canonicalHash: string, device: string,
          now: int)
    requires AllStored(s) && NamesUnique(s.heads)
    ensures AllStored(MigrateObjectNext(s, name, metaEnc, canonicalHash, device, now))
  {
    NamedIs(s.heads, name);
    TouchedIsStored(s, Named(s.heads, name), now, MigrateObjectVerdict(s, name, metaEnc, canonicalHash, device, now));
  }

  lemma TouchedIsStored(s: Store, cur: Option<Head>, now: int, verdict: Verdict)
    requires AllStored(s)
    requires verdict.Commit? ==> exists f :: f in s.heads && s.heads[f].blobId == verdict.head.blobId
    ensures AllStored(MigrateObjectApply(s, cur, now, verdict))
  {
  }

  /** What a step must not do: lose a blob in a failed repair, or go back to a content that is
      no longer stored. */
  ghost predicate Careful(o: Oracle, c: Config, s: Store, step: Step) {
    match step
    case Upload(q) => !LosesBlob(o, c, s, q)
    case RestoreObject(q) => q.fileId in s.tombs ==>
        BlobOf(o, s.tombs[q.fileId].priorContentHash) in s.blobs.Keys + {""}
    case _ => true
  }

  lemma OtherKeepsBlobs(o: Oracle, c: Config, s: Store, step: Step)
    requires LogDense(s) && !WritesObjects(step) && !step.Prune? && !step.Collect? && !step.Damage?
    ensures Next(o, c, s, step).blobs == s.blobs
  {
    if Sweeps(step) { SweepKeepsBlobs(c, s, step); } else { ScalarSteps(o, c, s, step); }
  }

  lemma SweepKeepsBlobs(c: Config, s: Store, step: Step)
    requires LogDense(s) && Sweeps(step) && !step.Prune? && !step.Collect? && !step.Damage?
    ensures AfterSweep(c, s, step).blobs == s.blobs
  {
    match step
    case MigrateTombstone(fileId, canonicalHash, device) => ConversionOf(s, fileId, canonicalHash, device);
    case Complete(id, device, shares, sentinels, erasure) => CompletionOf(s, id, device, shares, sentinels, erasure);
    case TrimLog(now) => TrimmedLog(c, s, now);
    case Purge(_) =>
  }

  lemma DamageKeepsStored(s: Store, blob: string, content: bytes)
    requires AllStored(s)
    ensures AllStored(DamageNext(s, blob, content))
  {
  }

  lemma StepKeepsStored(o: Oracle, c: Config, s: Store, step: Step)
    requires Sound(s) && AllStored(s) && Careful(o, c, s, step)
    ensures AllStored(Next(o, c, s, step))
  {
    if WritesObjects(step) { WriteKeepsStored(o, c, s, step); }
    else if step.Prune? { PruneKeepsStored(s, step.keys); }
    else if step.Collect? { CollectKeepsStored(s, step.collected); }
    else if step.Damage? { DamageKeepsStored(s, step.blob, step.content); }
    else { OtherKeepsStored(o, c, s, step); }
  }

  lemma WriteKeepsStored(o: Oracle, c: Config, s: Store, step: Step)
    requires Sound(s) && AllStored(s) && Careful(o, c, s, step) && WritesObjects(step)
    ensures AllStored(AfterWrite(o, c, s, step))
  {
    match step
    case Upload(q) => UploadKeepsStored(o, c, s, q);
    case DeleteObject(q) => DeleteKeepsStored(o, c, s, q);
    case Rename(q) => RenameKeepsStored(o, s, q);
    case RestoreObject(q) => CarefulRestoreKeepsStored(o, c, s, q);
    case MigrateObject(name, metaEnc, canonicalHash, device, now) => MigrateObjectKeepsStored(s, name, metaEnc,
        canonicalHash, device, now);
  }

  lemma PruneKeepsStored(s: Store, keys: set<VersionKey>)
    requires AllStored(s)
    ensures AllStored(PruneNext(s, keys))
  {
    DropKeepsStored(s, keys, true);
  }

  lemma CarefulRestoreKeepsStored(o: Oracle, c: Config, s: Store, q: RestoreRequest)
    requires AllStored(s) && Careful(o, c, s, RestoreObject(q))
    ensures AllStored(RestoreNext(o, c, s, q))
  {
    if RestoreVerdict(o, s, q).Commit? && UniqueAllows(s.heads, RestoreVerdict(o, s, q).head) {
      RestoreKeepsStored(o, c, s, q);
    }
  }

  lemma OtherKeepsStored(o: Oracle, c: Config, s: Store, step: Step)
    requires LogDense(s) && AllStored(s) && !WritesObjects(step) && !step.Prune? && !step.Collect? && !step.Damage?
    ensures AllStored(Next(o, c, s, step))
  {
    QuietEffect(o, c, s, step);
    OtherKeepsBlobs(o, c, s, step);
  }

  ghost predicate CarefulRun(o: Oracle, c: Config, s: Store, steps: seq<Step>) {
    forall i :: 0 <= i < |steps| ==> Careful(o, c, Run(o, c, s, steps[..i]), steps[i])
  }

  lemma CarefulSoFar(o: Oracle, c: Config, s: Store, steps: seq<Step>)
    requires steps != [] && CarefulRun(o, c, s, steps)
    ensures var init := steps[..|steps| - 1];
            CarefulRun(o, c, s, init) &&
            Careful(o, c, Run(o, c, s, init), steps[|steps| - 1])
  {
    var init := steps[..|steps| - 1];
    forall i | 0 <= i < |init| ensures Careful(o, c, Run(o, c, s, init[..i]), init[i]) {
      assert init[..i] == steps[..i] && init[i] == steps[i];
    }
  }

  /** In every careful run nothing dangles, whatever crashes, pruning, collection and damage to
      stored files happen. */
  lemma {:induction false} NothingDangles(o: Oracle, c: Config, s: Store, steps: seq<Step>)
    requires Sound(s) && AllStored(s) && CarefulRun(o, c, s, steps)
    ensures AllStored(Run(o, c, s, steps))
  {
    if steps != [] {
      var init := steps[..|steps| - 1];
      CarefulSoFar(o, c, s, steps);
      RunKeepsSound(o, c, s, init);
      NothingDangles(o, c, s, init);
      StepKeepsStored(o, c, Run(o, c, s, init), steps[|steps| - 1]);
    }
  }
}
