/** Content generations only move forward, and the validator's check on them. */
module Generations {
  import opened Bytes
  import opened Envelope
  import opened Options
  import opened Tables
  import opened Requests
  import opened Steps
  import opened Effects
  import opened Runs

  // ---------- runs with generations below 2^63 ----------

  /** No recorded version is of a later generation than its object, live or deleted. */
  ghost predicate Monotonic(s: Store) {
    (forall f :: f in s.heads ==> 0 <= s.heads[f].contentGeneration) &&
    (forall f :: f in s.tombs ==> 0 <= s.tombs[f].contentGeneration) &&
    (forall k :: k in s.versions && k.0 in s.heads ==>
      s.versions[k].contentGeneration <= s.heads[k.0].contentGeneration) &&
    (forall k :: k in s.versions && k.0 in s.tombs ==>
      s.versions[k].contentGeneration <= s.tombs[k.0].contentGeneration)
  }

  /** The generation an upload's header carries is below 2^63.  A restore's is never negative: the
      request handler refuses those. */
  ghost predicate GenerationInRange(step: Step) {
    match step
    case Upload(q) => Generation(q.body).Some? ==> 0 <= Generation(q.body).value
    case RestoreObject(q) => 0 <= q.contentGeneration
    case _ => true
  }

  /** The written generation is not behind the object's. */
  ghost predicate MovesForward(s: Store, kind: WriteKind, h: Head)
    requires RevisionFollows(s, kind, h)
  {
    match kind
    case Created => 0 <= h.contentGeneration
    case Updated => s.heads[h.fileId].contentGeneration <= h.contentGeneration
    case Touched => true
    case Revived => s.tombs[h.fileId].contentGeneration <= h.contentGeneration
  }

  lemma EffectKeepsMonotonic(s: Store, s': Store, e: Effect)
    requires Sound(s) && HistoryFits(s) && Monotonic(s) && HasEffect(s, s', e)
    requires e.Wrote? ==> MovesForward(s, e.kind, e.h)
    ensures Monotonic(s')
  {
    match e
    case Quiet =>
    case Wrote(kind, h, c) => WriteKeepsMonotonic(s, s', kind, h, c);
    case Erased(t, c) =>
  }

  lemma WriteKeepsMonotonic(s: Store, s': Store, kind: WriteKind, h: Head, c: Change)
    requires LifeCycle(s) && HistoryFits(s) && Monotonic(s) && IsWrite(s, s', kind, h, c) && MovesForward(s, kind, h)
    ensures Monotonic(s')
  {
  }

  lemma UploadMovesForward(o: Oracle, s: Store, q: UploadRequest, kind: WriteKind)
    requires Sound(s) && Monotonic(s) && GenerationInRange(Upload(q)) && (kind == Created || kind == Updated)
    requires UploadVerdict(o, s, q).Commit? && RevisionFollows(s, kind, UploadVerdict(o, s, q).head)
    ensures MovesForward(s, kind, UploadVerdict(o, s, q).head)
  {
    NamedIs(s.heads, q.path);
    var k := UploadFollows(o, s, q);
  }

  lemma CommitMovesForward(o: Oracle, s: Store, step: Step, kind: WriteKind)
    requires Sound(s) && Monotonic(s) && GenerationInRange(step) && KindOf(step, kind)
    requires VerdictOf(o, s, step).Commit? && RevisionFollows(s, kind, VerdictOf(o, s, step).head)
    ensures MovesForward(s, kind, VerdictOf(o, s, step).head)
  {
    if step.Upload? { UploadMovesForward(o, s, step.upload, kind); }
  }

  lemma {:induction false} RunKeepsMonotonic(o: Oracle, c: Config, s: Store, steps: seq<Step>)
    requires Sound(s) && HistoryFits(s) && LogKnown(s) && Monotonic(s)
    requires forall i :: 0 <= i < |steps| ==> GenerationInRange(steps[i])
    ensures Monotonic(Run(o, c, s, steps))
  {
    if steps != [] {
      var init, step := steps[..|steps| - 1], steps[|steps| - 1];
      var s0 := Run(o, c, s, init);
      RunKeepsSound(o, c, s, init);
      RunKeepsHistory(o, c, s, init);
      RunKeepsMonotonic(o, c, s, init);
      StepKeepsMonotonic(o, c, s0, step);
    }
  }

  lemma StepKeepsMonotonic(o: Oracle, c: Config, s: Store, step: Step)
    requires Sound(s) && HistoryFits(s) && Monotonic(s) && GenerationInRange(step)
    ensures Monotonic(Next(o, c, s, step))
  {
    var e := StepEffect(o, c, s, step);
    if e.Wrote? { CommitMovesForward(o, s, step, e.kind); }
    EffectKeepsMonotonic(s, Next(o, c, s, step), e);
  }

  /** With generations below 2^63 the validator's checks on history cannot fail: generations
      are monotonic and every version belongs to a known object. */
  lemma HistoryChecksHold(o: Oracle, c: Config, repoEpoch: string, steps: seq<Step>)
    requires forall i :: 0 <= i < |steps| ==> GenerationInRange(steps[i])
    ensures var s := Run(o, c, EmptyStore(repoEpoch), steps);
            HistoryKnown(s) && forall f :: f in s.heads ==> GenerationMonotonic(s, f)
  {
    EmptyIsSound(repoEpoch);
    RunKeepsHistory(o, c, EmptyStore(repoEpoch), steps);
    RunKeepsMonotonic(o, c, EmptyStore(repoEpoch), steps);
  }

  // ---------- generations of 2^63 and above, which read as negative ----------

  /** A version of the object that the pruning after one more version leaves on record. */
  predicate Outlives(o: Oracle, c: Config, s: Store, h: Head, now: int, k: VersionKey)
    requires k in s.versions
  {
    var (days, max) := RetentionFor(o, c, s.repo.meta, h.pseudonym);
    !c.historyEnabled ||
    !((max > 0 && |Newer(s.versions, k)| + 1 >= max) ||
      (days > 0 && now - days * 86400 > 0 && s.versions[k].createdAt < now - days * 86400))
  }

  /** The new content is behind one that stays on record, or is negative and nothing is recorded. */
  predicate FallsBehind(o: Oracle, c: Config, s: Store, h: Head, now: int) {
    (exists k :: k in s.versions && k.0 == h.fileId && Outlives(o, c, s, h, now, k) &&
      s.versions[k].contentGeneration > h.contentGeneration) ||
    (!c.historyEnabled && Unrecorded(s.versions, h.fileId) && h.contentGeneration < 0)
  }

  lemma OneMoreNewer(versions: map<VersionKey, Version>, k: VersionKey, n: VersionKey, v: Version)
    requires k in versions && n !in versions && n.0 == k.0 && k.1 < n.1
    ensures Newer(versions[n := v], k) == Newer(versions, k) + {n} &&
            |Newer(versions[n := v], k)| == |Newer(versions, k)| + 1
  {
    assert Newer(versions[n := v], k) == Newer(versions, k) + {n};
  }

  /** What an upload leaves on record of its object: of what was there, */
  lemma OldRecordAfter(o: Oracle, c: Config, s: Store, h: Head, q: UploadRequest, k: VersionKey)
    requires k.0 == h.fileId && k != (h.fileId, h.revision) && forall j :: j in s.versions && j.0 == h.fileId ==>
             j.1 < h.revision
    ensures var versions := UploadCommitted(o, c, s, h, q).versions;
            (k in versions <==> k in s.versions && Outlives(o, c, s, h, q.now, k)) &&
              (k in versions ==> versions[k] == s.versions[k])
  {
    var n, written := (h.fileId, h.revision), UploadWritten(c, s, h, q).versions;
    if c.historyEnabled && k in s.versions { OneMoreNewer(s.versions, k, n, written[n]); }
  }

  /** and the new version. */
  lemma NewRecordAfter(o: Oracle, c: Config, s: Store, h: Head, q: UploadRequest)
    requires forall j :: j in s.versions && j.0 == h.fileId ==> j.1 < h.revision
    ensures var k, versions := (h.fileId, h.revision), UploadCommitted(o, c, s, h, q).versions;
            (k in versions <==> c.historyEnabled) &&
              (k in versions ==> versions[k].contentGeneration == h.contentGeneration)
  {
    assert (h.fileId, h.revision) !in s.versions;
    if c.historyEnabled { assert Newer(UploadWritten(c, s, h, q).versions, (h.fileId, h.revision)) == {}; }
  }

  lemma CommittedGenerationCheck(o: Oracle, c: Config, s: Store, h: Head, q: UploadRequest)
    requires forall j :: j in s.versions && j.0 == h.fileId ==> j.1 < h.revision
    ensures var s' := UploadCommitted(o, c, s, h, q);
            h.fileId in s'.heads && (GenerationMonotonic(s', h.fileId) <==> !FallsBehind(o, c, s, h, q.now))
  {
    var s', n := UploadCommitted(o, c, s, h, q), (h.fileId, h.revision);
    UploadTables(o, c, s, h, q);
    NewRecordAfter(o, c, s, h, q);
    forall k: VersionKey | k.0 == h.fileId
      ensures k != n ==>
                (k in s'.versions <==> k in s.versions && Outlives(o, c, s, h, q.now, k)) &&
                (k in s'.versions ==> s'.versions[k] == s.versions[k])
    {
      if k != n { OldRecordAfter(o, c, s, h, q, k); }
    }
  }

  /** The check on generations fails for an object right after an upload exactly when the new
      content falls behind. */
  lemma UploadGenerationCheck(o: Oracle, c: Config, s: Store, q: UploadRequest)
    requires Sound(s) && HistoryFits(s) && UploadNext(o, c, s, q).repo.head > s.repo.head
    ensures var s', verdict := UploadNext(o, c, s, q), UploadVerdict(o, s, q);
            verdict.Commit? && verdict.head.fileId in s'.heads &&
            (GenerationMonotonic(s', verdict.head.fileId) <==> !FallsBehind(o, c, s, verdict.head, q.now))
  {
    if UploadVerdict(o, s, q).Commit? { UploadRevisionIsNew(o, s, q); }
    AppliedGenerationCheck(o, c, s, q, UploadVerdict(o, s, q));
  }

  lemma AppliedGenerationCheck(o: Oracle, c: Config, s: Store, q: UploadRequest, verdict: Verdict)
    requires verdict.Commit? ==> forall j :: j in s.versions && j.0 == verdict.head.fileId ==>
             j.1 < verdict.head.revision
    requires UploadApply(o, c, s, q, verdict).repo.head > s.repo.head
    ensures var s' := UploadApply(o, c, s, q, verdict);
            verdict.Commit? && verdict.head.fileId in s'.heads &&
            (GenerationMonotonic(s', verdict.head.fileId) <==> !FallsBehind(o, c, s, verdict.head, q.now))
  {
    var h := verdict.head;
    var s1 := s.(blobs := StoreBlob(o, c.strictVerify, s.blobs, h.blobId, q.body, q.fault, q.quarantineFull).1);
    CommittedGenerationCheck(o, c, s1, h, q);
    assert FallsBehind(o, c, s1, h, q.now) == FallsBehind(o, c, s, h, q.now) by {
      assert forall k :: k in s.versions ==> Outlives(o, c, s1, h, q.now, k) == Outlives(o, c, s, h, q.now, k);
    }
  }

  lemma UploadRevisionIsNew(o: Oracle, s: Store, q: UploadRequest)
    requires Sound(s) && HistoryFits(s) && UploadVerdict(o, s, q).Commit?
    ensures var h := UploadVerdict(o, s, q).head; forall j :: j in s.versions && j.0 == h.fileId ==> j.1 < h.revision
  {
    var kind := UploadFollows(o, s, q);
  }

  /** Where the check passes, only a header of 2^63 or above can make it fail, and only on an
      object whose own generation is not positive: of others the guard refuses it. */
  lemma OnlyNegativeFallsBehind(o: Oracle, c: Config, s: Store, q: UploadRequest)
    requires Sound(s) && HistoryFits(s) && UploadVerdict(o, s, q).Commit?
    requires forall f :: f in s.heads ==> GenerationMonotonic(s, f)
    requires FallsBehind(o, c, s, UploadVerdict(o, s, q).head, q.now)
    ensures Generation(q.body).Some? && Generation(q.body).value < 0
    ensures var f := UploadVerdict(o, s, q).head.fileId; f in s.heads ==> s.heads[f].contentGeneration <= 0
  {
    NamedIs(s.heads, q.path);
    var kind := UploadFollows(o, s, q);
  }
}
