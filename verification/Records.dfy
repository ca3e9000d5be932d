/** What the history holds of the objects, and what a deletion and a restore make of it. */
module Records {
  import opened Options
  import opened Tables
  import opened Requests
  import opened Steps
  import opened Effects
  import opened Runs
  import opened Budget
  import opened Newest

  /** The version tells of the content the head has. */
  predicate Mirrors(v: Version, h: Head) {
    v.fileId == h.fileId && v.revision == h.revision && v.contentHash == h.contentHash && v.blobId == h.blobId &&
    v.contentGeneration == h.contentGeneration && v.size == h.size && v.mtime == h.mtime &&
    v.keyEpoch == h.keyEpoch && v.action != Delete
  }

  /** Every live object's content is the last thing on record of it. */
  ghost predicate Recorded(s: Store) {
    forall f :: f in s.heads ==> IsRecorded(s.versions, s.heads[f])
  }

  predicate IsRecorded(versions: map<VersionKey, Version>, h: Head) {
    (h.fileId, h.revision) in versions && Mirrors(versions[(h.fileId, h.revision)], h)
  }

  // ---------- with history on, every content is recorded ----------

  lemma WrittenIsRecorded(c: Config, s: Store, h: Head, q: UploadRequest)
    requires c.historyEnabled && (h.fileId, h.revision) !in s.versions && q.action != Some(Delete)
    ensures IsRecorded(UploadWritten(c, s, h, q).versions, h)
  {
  }

  lemma PruningKeepsRecord(o: Oracle, c: Config, s: Store, h: Head, now: int, collect: bool)
    requires IsRecorded(s.versions, h) && Newer(s.versions, (h.fileId, h.revision)) == {}
    ensures IsRecorded(UploadPruned(o, c, s, h, now, collect).versions, h)
  {
  }

  lemma UploadIsRecorded(o: Oracle, c: Config, s: Store, h: Head, q: UploadRequest)
    requires c.historyEnabled && q.action != Some(Delete)
    requires forall j :: j in s.versions && j.0 == h.fileId ==> j.1 < h.revision
    ensures IsRecorded(UploadCommitted(o, c, s, h, q).versions, h)
  {
    assert (h.fileId, h.revision) !in s.versions;
    WrittenIsRecorded(c, s, h, q);
    var written := UploadWritten(c, s, h, q);
    assert Newer(written.versions, (h.fileId, h.revision)) == {};
    PruningKeepsRecord(o, c, written, h, q.now, q.fault != AfterCommit);
  }

  lemma UploadApplied(o: Oracle, c: Config, s: Store, q: UploadRequest, verdict: Verdict)
    requires c.historyEnabled && q.action != Some(Delete)
    requires verdict.Commit? && UploadApply(o, c, s, q, verdict).repo.head > s.repo.head
    requires forall j :: j in s.versions && j.0 == verdict.head.fileId ==> j.1 < verdict.head.revision
    ensures IsRecorded(UploadApply(o, c, s, q, verdict).versions, verdict.head)
  {
    var blobs := StoreBlob(o, c.strictVerify, s.blobs, verdict.head.blobId, q.body, q.fault, q.quarantineFull).1;
    UploadIsRecorded(o, c, s.(blobs := blobs), verdict.head, q);
  }

  lemma RestoreApplied(c: Config, s: Store, q: RestoreRequest, verdict: Verdict)
    requires c.historyEnabled && verdict.Commit? && RestoreApply(c, s, q, verdict).repo.head > s.repo.head
    requires (verdict.head.fileId, verdict.head.revision) !in s.versions
    ensures IsRecorded(RestoreApply(c, s, q, verdict).versions, verdict.head)
  {
  }

  lemma OlderThanWritten(s: Store, s': Store, e: Effect)
    requires Sound(s) && HistoryFits(s) && HasEffect(s, s', e) && e.Wrote? && e.kind != Touched
    ensures forall j :: j in s.versions && j.0 == e.h.fileId ==> j.1 < e.h.revision
  {
  }

  lemma ActionIsNoDeletion(o: Oracle, s: Store, q: UploadRequest)
    requires UploadVerdict(o, s, q).Commit?
    ensures q.action != Some(Delete)
  {
  }

  /** A write of a content records it. */
  lemma WriteIsRecorded(o: Oracle, c: Config, s: Store, step: Step, e: Effect)
    requires Sound(s) && HistoryFits(s) && c.historyEnabled && HasEffect(s, Next(o, c, s, step), e)
    requires e.Wrote? && e.kind != Touched && KindOf(step, e.kind) && VerdictOf(o, s, step) == Commit(e.h)
    ensures IsRecorded(Next(o, c, s, step).versions, e.h)
  {
    OlderThanWritten(s, Next(o, c, s, step), e);
    if step.Upload? {
      ActionIsNoDeletion(o, s, step.upload);
      UploadApplied(o, c, s, step.upload, UploadVerdict(o, s, step.upload));
    } else {
      assert (e.h.fileId, e.h.revision) !in s.versions;
      RestoreApplied(c, s, step.restore, RestoreVerdict(o, s, step.restore));
    }
  }

  /** What is on record of an object stays, as long as nothing newer of it is recorded. */
  lemma RecordStays(versions: map<VersionKey, Version>, versions': map<VersionKey, Version>, h: Head, h': Head)
    requires IsRecorded(versions, h) && OnlyNames(h, h') && NoneLost(versions, versions')
    requires NothingNewOf(versions, versions', h.fileId)
    requires forall j :: j in versions && j.0 == h.fileId ==> j.1 <= h.revision
    ensures IsRecorded(versions', h')
  {
    var k := (h.fileId, h.revision);
    assert AsNewIn(versions', k);
    var j :| j in versions' && j.0 == k.0 && k.1 <= j.1;
    assert j == k;
  }

  /** No version of the object is new. */
  predicate NothingNewOf(versions: map<VersionKey, Version>, versions': map<VersionKey, Version>, f: string) {
    forall j :: j in versions' && j.0 == f ==> j in versions && versions'[j] == versions[j]
  }

  /** The object goes on with the content and the history it had. */
  predicate Continues(s: Store, s': Store, f: string) {
    f in s.heads && s.heads[f].fileId == f && f in s'.heads && OnlyNames(s.heads[f], s'.heads[f]) &&
    NothingNewOf(s.versions, s'.versions, f)
  }

  predicate WritesContent(e: Effect, f: string) {
    e.Wrote? && e.kind != Touched && e.h.fileId == f
  }

  lemma OthersContinue(s: Store, s': Store, e: Effect)
    requires LifeCycle(s) && HasEffect(s, s', e)
    ensures OthersGoOn(s, s', e)
  {
  }

  ghost predicate OthersGoOn(s: Store, s': Store, e: Effect) {
    forall f :: f in s'.heads && !WritesContent(e, f) ==> Continues(s, s', f)
  }

  ghost predicate WrittenOnRecord(s': Store, e: Effect) {
    forall f :: f in s'.heads && WritesContent(e, f) ==> IsRecorded(s'.versions, s'.heads[f])
  }

  lemma StepIsOnRecord(o: Oracle, c: Config, s: Store, step: Step) returns (e: Effect)
    requires Sound(s) && HistoryFits(s) && c.historyEnabled
    ensures OthersGoOn(s, Next(o, c, s, step), e) && WrittenOnRecord(Next(o, c, s, step), e)
  {
    e := StepEffect(o, c, s, step);
    OthersContinue(s, Next(o, c, s, step), e);
    if e.Wrote? && e.kind != Touched { WriteIsRecorded(o, c, s, step, e); }
  }

  lemma OneStaysRecorded(s: Store, f: string, versions': map<VersionKey, Version>, h': Head)
    requires HistoryFits(s) && f in s.heads && s.heads[f].fileId == f && IsRecorded(s.versions, s.heads[f])
    requires NoneLost(s.versions, versions') && NothingNewOf(s.versions, versions', f) && OnlyNames(s.heads[f], h')
    ensures IsRecorded(versions', h')
  {
    NoneIsLater(s, f);
    RecordStays(s.versions, versions', s.heads[f], h');
  }

  lemma NoneIsLater(s: Store, f: string)
    requires HistoryFits(s) && f in s.heads
    ensures forall j :: j in s.versions && j.0 == f ==> j.1 <= s.heads[f].revision
  {
  }

  lemma OthersStayRecorded(s: Store, s': Store, f: string)
    requires HistoryFits(s) && Recorded(s) && NoneLost(s.versions, s'.versions) && Continues(s, s', f)
    ensures IsRecorded(s'.versions, s'.heads[f])
  {
    OneStaysRecorded(s, f, s'.versions, s'.heads[f]);
  }

  lemma AllStayRecorded(s: Store, s': Store, e: Effect)
    requires HistoryFits(s) && Recorded(s) && NoneLost(s.versions, s'.versions)
    requires OthersGoOn(s, s', e) && WrittenOnRecord(s', e)
    ensures Recorded(s')
  {
    forall f | f in s'.heads && !WritesContent(e, f) ensures IsRecorded(s'.versions, s'.heads[f]) {
      OthersStayRecorded(s, s', f);
    }
  }

  lemma StepKeepsRecorded(o: Oracle, c: Config, s: Store, step: Step)
    requires Sound(s) && HistoryFits(s) && Recorded(s) && c.historyEnabled
    ensures Recorded(Next(o, c, s, step))
  {
    var e := StepIsOnRecord(o, c, s, step);
    StepLosesNone(o, c, s, step);
    AllStayRecorded(s, Next(o, c, s, step), e);
  }

  /** With history on, in every run, the content of every live object is on record, under the revision
      the object is at, whatever has been pruned. */
  lemma {:induction false} RunKeepsRecorded(o: Oracle, c: Config, s: Store, steps: seq<Step>)
    requires Sound(s) && HistoryFits(s) && LogKnown(s) && Recorded(s) && c.historyEnabled
    ensures Recorded(Run(o, c, s, steps))
  {
    if steps != [] {
      var init := steps[..|steps| - 1];
      RunKeepsRecorded(o, c, s, init);
      RunKeepsSound(o, c, s, init);
      RunKeepsHistory(o, c, s, init);
      StepKeepsRecorded(o, c, Run(o, c, s, init), steps[|steps| - 1]);
    }
  }

  // ---------- with history off, nothing is ----------

  lemma NothingIsRecorded(o: Oracle, c: Config, s: Store, step: Step)
    requires LogDense(s) && !c.historyEnabled && s.versions == map[]
    ensures Next(o, c, s, step).versions == map[]
  {
    if WritesObjects(step) {
      WriteRecordsNothing(o, c, s, step);
    } else {
      QuietEffect(o, c, s, step);
    }
  }

  lemma UploadRecordsNothing(o: Oracle, c: Config, s: Store, q: UploadRequest, verdict: Verdict)
    requires !c.historyEnabled
    ensures UploadApply(o, c, s, q, verdict).versions == s.versions
  {
  }

  lemma DeleteRecordsNothing(c: Config, s: Store, q: DeleteRequest, verdict: Verdict)
    requires !c.historyEnabled
    ensures DeleteApply(c, s, q, verdict).versions == s.versions
  {
  }

  lemma RestoreRecordsNothing(c: Config, s: Store, q: RestoreRequest, verdict: Verdict)
    requires !c.historyEnabled
    ensures RestoreApply(c, s, q, verdict).versions == s.versions
  {
  }

  lemma MigrationRecordsNothing(s: Store, cur: Option<Head>, now: int, verdict: Verdict)
    ensures MigrateObjectApply(s, cur, now, verdict).versions == s.versions
  {
  }

  lemma WriteRecordsNothing(o: Oracle, c: Config, s: Store, step: Step)
    requires WritesObjects(step) && !c.historyEnabled
    ensures AfterWrite(o, c, s, step).versions == s.versions
  {
    match step
    case Upload(q) => UploadRecordsNothing(o, c, s, q, UploadVerdict(o, s, q));
    case DeleteObject(q) => DeleteRecordsNothing(c, s, q, DeleteVerdict(o, s, q));
    case Rename(q) =>
    case RestoreObject(q) => RestoreRecordsNothing(c, s, q, RestoreVerdict(o, s, q));
    case MigrateObject(name, metaEnc, canonicalHash, device, now) =>
      MigrationRecordsNothing(s, Named(s.heads, name), now,
        MigrateObjectVerdict(s, name, metaEnc, canonicalHash, device, now));
  }

  lemma {:induction false} RunRecordsNothing(o: Oracle, c: Config, s: Store, steps: seq<Step>)
    requires Sound(s) && !c.historyEnabled && s.versions == map[]
    ensures Run(o, c, s, steps).versions == map[]
  {
    if steps != [] {
      var init := steps[..|steps| - 1];
      RunKeepsSound(o, c, s, init);
      RunRecordsNothing(o, c, s, init);
      NothingIsRecorded(o, c, Run(o, c, s, init), steps[|steps| - 1]);
    }
  }

  // ---------- what a deletion remembers ----------

  predicate HasContent(v: Version) {
    v.action != Delete && v.contentHash != ""
  }

  /** The version is the last one of its object that has a content. */
  predicate LastWithContent(versions: map<VersionKey, Version>, k: VersionKey) {
    k in versions && HasContent(versions[k]) &&
    forall j :: j in versions && j.0 == k.0 && j.1 > k.1 ==> !HasContent(versions[j])
  }

  /** Whether the deletion's content is that of the last version on record that has one, and where
      none has, that of the object. */
  ghost predicate Recalls(t: Tombstone, versions: map<VersionKey, Version>, h: Head) {
    (forall k :: LastWithContent(versions, k) && k.0 == h.fileId ==> t.priorContentHash == versions[k].contentHash) &&
    ((forall k :: k in versions && k.0 == h.fileId ==> !HasContent(versions[k])) ==>
      t.priorContentHash == h.contentHash)
  }

  /** A committed delete takes the live object of that name, and the deletion recalls its content so. */
  lemma DeletionRecalls(o: Oracle, c: Config, s: Store, q: DeleteRequest) returns (h: Head)
    requires Sound(s) && DeleteNext(o, c, s, q).repo.head > s.repo.head
    ensures h.fileId in s.heads && s.heads[h.fileId] == h && h.pseudonym == q.path
    ensures var s' := DeleteNext(o, c, s, q);
            h.fileId !in s'.heads && h.fileId in s'.tombs && Remembers(s'.tombs[h.fileId], h) &&
            Recalls(s'.tombs[h.fileId], s.versions, h)
  {
    NamedIs(s.heads, q.path);
    h := DeleteVerdict(o, s, q).head;
    TombstoneIs(c, s, q, h);
    PriorIsLast(s.versions, h.fileId);
  }

  lemma TombstoneIs(c: Config, s: Store, q: DeleteRequest, h: Head)
    ensures var s' := DeleteApply(c, s, q, Commit(h));
            h.fileId !in s'.heads && h.fileId in s'.tombs && s'.tombs[h.fileId] == TombstoneOf(c, s, h, q.now)
  {
  }

  lemma PriorIsLast(versions: map<VersionKey, Version>, f: string)
    ensures forall k :: LastWithContent(versions, k) && k.0 == f ==>
              PriorContentHash(versions, f) == versions[k].contentHash != ""
    ensures (forall k :: k in versions && k.0 == f ==> !HasContent(versions[k])) ==> PriorContentHash(versions, f) == ""
  {
    forall k | LastWithContent(versions, k) && k.0 == f
      ensures PriorContentHash(versions, f) == versions[k].contentHash
    {
      assert IsPrior(versions, k);
    }
  }

  /** There is a last one with a content, or none at all. */
  lemma {:induction false} LastExists(versions: map<VersionKey, Version>, k: VersionKey, n: nat) returns (j: VersionKey)
    requires k in versions && HasContent(versions[k]) && |Newer(versions, k)| <= n
    ensures LastWithContent(versions, j) && j.0 == k.0
    decreases n
  {
    if LastWithContent(versions, k) {
      j := k;
    } else {
      var m :| m in versions && m.0 == k.0 && m.1 > k.1 && HasContent(versions[m]);
      assert m in Newer(versions, k) && m !in Newer(versions, m);
      assert Newer(versions, m) <= Newer(versions, k) - {m};
      SubsetSize(Newer(versions, m), Newer(versions, k) - {m});
      j := LastExists(versions, m, n - 1);
    }
  }

  /** In every run from an empty vault the deletion recalls exactly the content the object had when it
      was deleted: with history on when that is not the empty hash, and with history off always. */
  lemma DeletionRecallsContent(o: Oracle, c: Config, repoEpoch: string, steps: seq<Step>, q: DeleteRequest)
    returns (h: Head)
    requires var s := Run(o, c, EmptyStore(repoEpoch), steps); DeleteNext(o, c, s, q).repo.head > s.repo.head
    ensures var s := Run(o, c, EmptyStore(repoEpoch), steps);
            var s' := DeleteNext(o, c, s, q);
            h.fileId in s.heads && s.heads[h.fileId] == h && h.pseudonym == q.path && h.fileId in s'.tombs &&
            (h.contentHash != "" || !c.historyEnabled ==> s'.tombs[h.fileId].priorContentHash == h.contentHash)
  {
    var s0 := EmptyStore(repoEpoch);
    var s := Run(o, c, s0, steps);
    EmptyIsSound(repoEpoch);
    RunKeepsSound(o, c, s0, steps);
    h := DeletionRecalls(o, c, s, q);
    if c.historyEnabled {
      RunKeepsHistory(o, c, s0, steps);
      RunKeepsRecorded(o, c, s0, steps);
      if h.contentHash != "" { LiveIsLast(s, h); }
    } else {
      RunRecordsNothing(o, c, s0, steps);
    }
  }

  lemma LiveIsLast(s: Store, h: Head)
    requires Sound(s) && HistoryFits(s) && Recorded(s) && h.fileId in s.heads && s.heads[h.fileId] == h
    requires h.contentHash != ""
    ensures LastWithContent(s.versions, (h.fileId, h.revision)) &&
            s.versions[(h.fileId, h.revision)].contentHash == h.contentHash
  {
    assert IsRecorded(s.versions, h);
  }

  // ---------- what a restore brings back ----------

  /** The object's deletion of that revision, if it is still one, recalls that content; and the
      object is past it otherwise. */
  ghost predicate StillRecalls(s: Store, f: string, revision: int, content: string) {
    f in s.ledger && (f in s.heads ==> s.heads[f].revision > revision) &&
    (f in s.tombs ==>
      s.tombs[f].deletionRevision > revision ||
      (s.tombs[f].deletionRevision == revision && s.tombs[f].priorContentHash == content))
  }

  lemma StepStillRecalls(o: Oracle, c: Config, s: Store, step: Step, f: string, revision: int, content: string)
    requires Sound(s) && StillRecalls(s, f, revision, content)
    ensures StillRecalls(Next(o, c, s, step), f, revision, content)
  {
    var e := StepEffect(o, c, s, step);
    EffectStillRecalls(s, Next(o, c, s, step), e, f, revision, content);
  }

  lemma EffectStillRecalls(s: Store, s': Store, e: Effect, f: string, revision: int, content: string)
    requires Sound(s) && HasEffect(s, s', e) && StillRecalls(s, f, revision, content)
    ensures StillRecalls(s', f, revision, content)
  {
  }

  lemma {:induction false} RunStillRecalls(o: Oracle, c: Config, s: Store, steps: seq<Step>, f: string, revision: int,
          content: string)
    requires Sound(s) && StillRecalls(s, f, revision, content)
    ensures StillRecalls(Run(o, c, s, steps), f, revision, content)
  {
    if steps != [] {
      var init := steps[..|steps| - 1];
      RunKeepsSound(o, c, s, init);
      RunStillRecalls(o, c, s, init, f, revision, content);
      StepStillRecalls(o, c, Run(o, c, s, init), steps[|steps| - 1], f, revision, content);
    }
  }

  lemma RestoredContent(o: Oracle, c: Config, s: Store, q: RestoreRequest)
    requires Sound(s) && RestoreNext(o, c, s, q).repo.head > s.repo.head
    ensures q.fileId in s.tombs && s.tombs[q.fileId].deletionRevision == q.expectedRevision
    ensures var s' := RestoreNext(o, c, s, q);
            q.fileId in s'.heads && s'.heads[q.fileId].contentHash == s.tombs[q.fileId].priorContentHash &&
            s'.heads[q.fileId].revision == q.expectedRevision + 1
  {
    var e := RestoreEffect(o, c, s, q);
  }

  /** An object deleted in a run from an empty vault and restored, by that deletion, any steps later
      has the content it had just before it was deleted: with history on when that is not the empty
      hash, and with history off always. */
  lemma RestoreBringsBack(o: Oracle, c: Config, repoEpoch: string, before: seq<Step>, h: Head, q: DeleteRequest,
          between: seq<Step>, r: RestoreRequest)
    requires var s := Run(o, c, EmptyStore(repoEpoch), before);
             h.fileId in s.heads && s.heads[h.fileId] == h && h.pseudonym == q.path &&
             DeleteNext(o, c, s, q).repo.head > s.repo.head
    requires var s1 := DeleteNext(o, c, Run(o, c, EmptyStore(repoEpoch), before), q);
             r.fileId == h.fileId && r.expectedRevision == h.revision + 1 &&
             RestoreNext(o, c, Run(o, c, s1, between), r).repo.head > Run(o, c, s1, between).repo.head
    ensures var s1 := DeleteNext(o, c, Run(o, c, EmptyStore(repoEpoch), before), q);
            var s3 := RestoreNext(o, c, Run(o, c, s1, between), r);
            h.fileId in s3.heads &&
            (h.contentHash != "" || !c.historyEnabled ==> s3.heads[h.fileId].contentHash == h.contentHash)
  {
    var s := Run(o, c, EmptyStore(repoEpoch), before);
    var s1 := DeleteNext(o, c, s, q);
    EmptyIsSound(repoEpoch);
    RunKeepsSound(o, c, EmptyStore(repoEpoch), before);
    var g := DeletionRecallsContent(o, c, repoEpoch, before, q);
    OneOfThatName(s, g, h);
    DeletedStillRecalls(o, c, s, q, h);
    RunKeepsSound(o, c, s1, between);
    RunStillRecalls(o, c, s1, between, h.fileId, h.revision + 1, s1.tombs[h.fileId].priorContentHash);
    RestoredContent(o, c, Run(o, c, s1, between), r);
  }

  lemma OneOfThatName(s: Store, g: Head, h: Head)
    requires Sound(s) && g.fileId in s.heads && s.heads[g.fileId] == g && h.fileId in s.heads && s.heads[h.fileId] == h
    requires g.pseudonym == h.pseudonym
    ensures g == h
  {
  }

  lemma DeletedStillRecalls(o: Oracle, c: Config, s: Store, q: DeleteRequest, h: Head)
    requires Sound(s) && DeleteNext(o, c, s, q).repo.head > s.repo.head
    requires h.fileId in s.heads && s.heads[h.fileId] == h && h.pseudonym == q.path
    ensures var s1 := DeleteNext(o, c, s, q);
            Sound(s1) && h.fileId in s1.tombs &&
            StillRecalls(s1, h.fileId, h.revision + 1, s1.tombs[h.fileId].priorContentHash)
  {
    var g := DeletionRecalls(o, c, s, q);
    OneOfThatName(s, g, h);
    var e := DeleteEffect(o, c, s, q);
    EffectKeepsSound(s, DeleteNext(o, c, s, q), e);
  }
}
