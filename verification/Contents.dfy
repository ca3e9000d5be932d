/** What is served is what was recorded: blobs are named by what they contain. */
module Contents {
  import opened Bytes
  import opened Envelope
  import opened Options
  import opened Tables
  import opened Requests
  import opened Steps
  import opened Effects
  import opened Runs
  import opened Stored

  // ---------- a stored blob is the content its name stands for ----------

  /** Neither hashes nor keyed names are empty, keyed names are injective, and none is a hash. */
  ghost predicate Distinguishes(o: Oracle) {
    (forall b :: o.hash(b) != "") && (forall h :: o.blobName(h) != "") &&
    (forall g, h :: o.blobName(g) == o.blobName(h) ==> g == h) && forall b, h :: o.hash(b) != o.blobName(h)
  }

  /** A name of a content: its hash, as in the time before names were keyed, or its keyed name. */
  ghost predicate IsNameOf(o: Oracle, blob: string, content: bytes) {
    blob == o.hash(content) || blob == o.blobName(o.hash(content))
  }

  /** A row names its blob by the hash it records. */
  ghost predicate RowFits(o: Oracle, blob: string, contentHash: string) {
    blob == BlobOf(o, contentHash) || (blob == contentHash && exists b :: o.hash(b) == contentHash)
  }

  /** Every blob is stored under a name of its own content, and every row names its blob by the
      hash it records. */
  ghost predicate NamedByContent(o: Oracle, s: Store) {
    (forall b :: b in s.blobs ==> IsNameOf(o, b, s.blobs[b])) &&
    (forall f :: f in s.heads ==> RowFits(o, s.heads[f].blobId, s.heads[f].contentHash)) &&
    (forall k :: k in s.versions ==> RowFits(o, s.versions[k].blobId, s.versions[k].contentHash))
  }

  lemma UploadKeepsNames(o: Oracle, c: Config, s: Store, q: UploadRequest)
    requires Distinguishes(o) && NamedByContent(o, s)
    ensures NamedByContent(o, UploadNext(o, c, s, q))
  {
    if UploadVerdict(o, s, q).Commit? {
      var h := UploadVerdict(o, s, q).head;
      var (stored, blobs) := StoreBlob(o, c.strictVerify, s.blobs, h.blobId, q.body, q.fault, q.quarantineFull);
      var s1 := s.(blobs := blobs);
      StoringKeepsNames(o, c, s, q, h.blobId);
      WrittenKeepsNames(o, c, s1, h, q);
      DropKeepsNames(o, UploadWritten(c, s1, h, q));
    }
  }

  lemma StoringKeepsNames(o: Oracle, c: Config, s: Store, q: UploadRequest, blob: string)
    requires NamedByContent(o, s) && blob == o.blobName(o.hash(q.body))
    ensures var blobs := StoreBlob(o, c.strictVerify, s.blobs, blob, q.body, q.fault, q.quarantineFull).1;
            NamedByContent(o, s.(blobs := blobs))
  {
  }

  lemma WrittenKeepsNames(o: Oracle, c: Config, s: Store, h: Head, q: UploadRequest)
    requires NamedByContent(o, s) && RowFits(o, h.blobId, h.contentHash)
    ensures NamedByContent(o, UploadWritten(c, s, h, q))
  {
  }

  lemma DropKeepsNames(o: Oracle, s: Store)
    requires NamedByContent(o, s)
    ensures forall keys, collect :: NamedByContent(o, DropVersions(s, keys, collect))
  {
  }

  lemma StepKeepsNames(o: Oracle, c: Config, s: Store, step: Step)
    requires Sound(s) && Distinguishes(o) && NamedByContent(o, s) && !step.Damage?
    ensures NamedByContent(o, Next(o, c, s, step))
  {
    if WritesObjects(step) {
      WriteKeepsNames(o, c, s, step);
    } else if step.Prune? {
      PruneKeepsNames(o, s, step.keys);
    } else if step.Collect? {
    } else {
      QuietEffect(o, c, s, step);
      OtherKeepsBlobs(o, c, s, step);
    }
  }

  lemma WriteKeepsNames(o: Oracle, c: Config, s: Store, step: Step)
    requires Sound(s) && Distinguishes(o) && NamedByContent(o, s) && WritesObjects(step)
    ensures NamedByContent(o, AfterWrite(o, c, s, step))
  {
    match step
    case Upload(q) => UploadKeepsNames(o, c, s, q);
    case DeleteObject(q) => DeleteKeepsNames(o, c, s, q);
    case Rename(q) => RenameKeepsNames(o, s, q);
    case RestoreObject(q) => RestoreKeepsNames(o, c, s, q);
    case MigrateObject(name, metaEnc, canonicalHash, device, now) => MigrateObjectKeepsNames(o, s, name, metaEnc,
        canonicalHash, device, now);
  }

  lemma PruneKeepsNames(o: Oracle, s: Store, keys: set<VersionKey>)
    requires NamedByContent(o, s)
    ensures NamedByContent(o, PruneNext(s, keys))
  {
    DropKeepsNames(o, s);
  }

  lemma DeleteKeepsNames(o: Oracle, c: Config, s: Store, q: DeleteRequest)
    requires NamedByContent(o, s)
    ensures NamedByContent(o, DeleteNext(o, c, s, q))
  {
  }

  lemma RenameKeepsNames(o: Oracle, s: Store, q: RenameRequest)
    requires NamesUnique(s.heads) && NamedByContent(o, s)
    ensures NamedByContent(o, RenameNext(o, s, q))
  {
    NamedIs(s.heads, q.from);
  }

  lemma RestoreKeepsNames(o: Oracle, c: Config, s: Store, q: RestoreRequest)
    requires NamedByContent(o, s)
    ensures NamedByContent(o, RestoreNext(o, c, s, q))
  {
    RevivedKeepsNames(o, c, s, q, RestoreVerdict(o, s, q));
  }

  lemma RevivedKeepsNames(o: Oracle, c: Config, s: Store, q: RestoreRequest, verdict: Verdict)
    requires NamedByContent(o, s) && (verdict.Commit? ==> RowFits(o, verdict.head.blobId, verdict.head.contentHash))
    ensures NamedByContent(o, RestoreApply(c, s, q, verdict))
  {
  }

  lemma MigrateObjectKeepsNames(o: Oracle, s: Store, name: string, metaEnc: string, canonicalHash: string,
          device: string, now: int)
    requires NamesUnique(s.heads) && NamedByContent(o, s)
    ensures NamedByContent(o, MigrateObjectNext(s, name, metaEnc, canonicalHash, device, now))
  {
    NamedIs(s.heads, name);
    TouchedKeepsNames(o, s, Named(s.heads, name), now,
      MigrateObjectVerdict(s, name, metaEnc, canonicalHash, device, now));
  }

  lemma TouchedKeepsNames(o: Oracle, s: Store, cur: Option<Head>, now: int, verdict: Verdict)
    requires NamedByContent(o, s) && (verdict.Commit? ==> RowFits(o, verdict.head.blobId, verdict.head.contentHash))
    ensures NamedByContent(o, MigrateObjectApply(s, cur, now, verdict))
  {
  }

  lemma NameTells(o: Oracle, blob: string, contentHash: string, content: bytes)
    requires Distinguishes(o) && contentHash != "" && RowFits(o, blob, contentHash) && IsNameOf(o, blob, content)
    ensures o.hash(content) == contentHash
  {
  }

  ghost predicate Served(o: Oracle, blobs: map<string, bytes>, blob: string, contentHash: string) {
    blob in blobs && o.hash(blobs[blob]) == contentHash
  }

  /** In every careful run without damage to the disk, what is served for a live object or a
      recorded version is a content with exactly the hash on record. */
  lemma {:induction false} ServedContentIsRecorded(o: Oracle, c: Config, s: Store, steps: seq<Step>)
    requires Sound(s) && Distinguishes(o) && NamedByContent(o, s) && AllStored(s) && CarefulRun(o, c, s, steps)
    requires forall i :: 0 <= i < |steps| ==> !steps[i].Damage?
    ensures var s' := Run(o, c, s, steps);
            (forall f :: f in s'.heads && s'.heads[f].contentHash != "" ==>
              Served(o, s'.blobs, s'.heads[f].blobId, s'.heads[f].contentHash)) &&
            forall k :: k in s'.versions && s'.versions[k].contentHash != "" ==>
              Served(o, s'.blobs, s'.versions[k].blobId, s'.versions[k].contentHash)
  {
    NothingDangles(o, c, s, steps);
    RunKeepsNames(o, c, s, steps);
    StoredIsServed(o, Run(o, c, s, steps));
  }

  lemma StoredIsServed(o: Oracle, s: Store)
    requires Distinguishes(o) && NamedByContent(o, s) && AllStored(s)
    ensures forall f :: f in s.heads && s.heads[f].contentHash != "" ==>
            Served(o, s.blobs, s.heads[f].blobId, s.heads[f].contentHash)
    ensures forall k :: k in s.versions && s.versions[k].contentHash != "" ==>
            Served(o, s.blobs, s.versions[k].blobId, s.versions[k].contentHash)
  {
    forall f | f in s.heads && s.heads[f].contentHash != ""
      ensures Served(o, s.blobs, s.heads[f].blobId, s.heads[f].contentHash)
    {
      NameTells(o, s.heads[f].blobId, s.heads[f].contentHash, s.blobs[s.heads[f].blobId]);
    }
    forall k | k in s.versions && s.versions[k].contentHash != ""
      ensures Served(o, s.blobs, s.versions[k].blobId, s.versions[k].contentHash)
    {
      NameTells(o, s.versions[k].blobId, s.versions[k].contentHash, s.blobs[s.versions[k].blobId]);
    }
  }

  lemma {:induction false} RunKeepsNames(o: Oracle, c: Config, s: Store, steps: seq<Step>)
    requires Sound(s) && Distinguishes(o) && NamedByContent(o, s)
    requires forall i :: 0 <= i < |steps| ==> !steps[i].Damage?
    ensures NamedByContent(o, Run(o, c, s, steps))
  {
    if steps != [] {
      var init := steps[..|steps| - 1];
      RunKeepsSound(o, c, s, init);
      RunKeepsNames(o, c, s, init);
      StepKeepsNames(o, c, Run(o, c, s, init), steps[|steps| - 1]);
    }
  }
}
