/** A client that lost the answer and asks again. */
module Idempotence {
  import opened Bytes
  import opened Options
  import opened Tables
  import opened Requests
  import opened Steps
  import opened Effects
  import opened Runs

  predicate SameOperation(c: Change, d: Change) {
    c.fileId == d.fileId && c.operationId != "" && c.operationId == d.operationId
  }

  /** Of the changes of one object with one operation id, all but the first are deletions. */
  ghost predicate AtMostOnce(log: seq<Change>) {
    forall i, j :: 0 <= i < j < |log| && SameOperation(log[i], log[j]) ==> log[j].action == Delete
  }

  /** No upload, rename or restore is committed under an operation id the log already has for
      the object. */
  lemma WritesAreFirst(o: Oracle, c: Config, s: Store, step: Step) returns (e: Effect)
    requires Sound(s) && LogKnown(s)
    ensures HasEffect(s, Next(o, c, s, step), e)
    ensures e.Wrote? ==> !Logged(s.log, e.c.fileId, e.c.operationId)
    ensures e.Erased? ==> step.DeleteObject?
  {
    e := StepEffect(o, c, s, step);
    if e.Wrote? && e.kind == Created {
      assert forall i :: 0 <= i < |s.log| ==> s.log[i].fileId != e.h.fileId;
    }
  }

  lemma {:induction false} RunAtMostOnce(o: Oracle, c: Config, s: Store, steps: seq<Step>)
    requires Sound(s) && HistoryFits(s) && LogKnown(s) && AtMostOnce(s.log)
    ensures AtMostOnce(Run(o, c, s, steps).log)
  {
    if steps != [] {
      var init := steps[..|steps| - 1];
      var s0 := Run(o, c, s, init);
      RunKeepsSound(o, c, s, init);
      RunKeepsHistory(o, c, s, init);
      RunAtMostOnce(o, c, s, init);
      var e := WritesAreFirst(o, c, s0, steps[|steps| - 1]);
      EffectKeepsOnce(s0, Run(o, c, s, steps), e);
    }
  }

  lemma EffectKeepsOnce(s: Store, s': Store, e: Effect)
    requires LogDense(s) && AtMostOnce(s.log) && HasEffect(s, s', e)
    requires e.Wrote? ==> !Logged(s.log, e.c.fileId, e.c.operationId)
    ensures AtMostOnce(s'.log)
  {
    if e.Quiet? { AfterDense(s.log, s.repo.minRetained, s'.repo.minRetained); }
  }

  /** Deletions are the exception: a step publishes a change under an operation id the log
      already has for the object exactly when it is a delete that reuses the id. */
  lemma OnlyDeleteRepeats(o: Oracle, c: Config, s: Store, step: Step) returns (e: Effect)
    requires Sound(s) && LogKnown(s)
    ensures HasEffect(s, Next(o, c, s, step), e)
    ensures !e.Quiet? && Logged(s.log, e.c.fileId, e.c.operationId) <==>
            step.DeleteObject? && ReusesId(o, s, step.delete)
  {
    if step.DeleteObject? {
      e := DeleteEffect(o, c, s, step.delete);
      ReuseIsCommitted(o, s, step.delete);
      if e.Erased? { DeletePublishes(o, c, s, step.delete); }
    } else {
      e := WritesAreFirst(o, c, s, step);
    }
  }

  /** The guard lets the delete pass, its name is that of a live object at the given revision, and the
      log has a change of that object under the delete's operation id. */
  ghost predicate ReusesId(o: Oracle, s: Store, q: DeleteRequest) {
    o.validPath(q.path) && GuardWrite(s.repo, q.client, q.deviceId, q.path).None? &&
    exists f :: f in s.heads && s.heads[f].pseudonym == q.path && s.heads[f].revision == q.baseRevision &&
      Logged(s.log, f, q.client.operationId)
  }

  lemma ReuseIsCommitted(o: Oracle, s: Store, q: DeleteRequest)
    requires Sound(s)
    ensures ReusesId(o, s, q) <==>
            DeleteVerdict(o, s, q).Commit? && Logged(s.log, DeleteVerdict(o, s, q).head.fileId, q.client.operationId)
  {
    NamedIs(s.heads, q.path);
  }

  lemma DeletePublishes(o: Oracle, c: Config, s: Store, q: DeleteRequest)
    requires DeleteVerdict(o, s, q).Commit?
    ensures var s' := DeleteNext(o, c, s, q);
            |s'.log| == |s.log| + 1 && s'.log[|s.log|].fileId == DeleteVerdict(o, s, q).head.fileId &&
            s'.log[|s.log|].operationId == q.client.operationId
  {
  }

  // ---------- the same request again, at once ----------

  /** The same upload, sent again at another time and served with other luck. */
  predicate SameUpload(q: UploadRequest, q': UploadRequest) {
    q' == q.(now := q'.now, nowMillis := q'.nowMillis, freshIds := q'.freshIds, fault := q'.fault,
      quarantineFull := q'.quarantineFull)
  }

  /** Once an upload is committed, sending it again changes nothing at all. */
  lemma UploadTwice(o: Oracle, c: Config, s: Store, q: UploadRequest, q': UploadRequest)
    requires Sound(s) && SameUpload(q, q') && UploadNext(o, c, s, q).heads != s.heads
    ensures UploadNext(o, c, UploadNext(o, c, s, q), q') == UploadNext(o, c, s, q)
  {
    var s' := UploadNext(o, c, s, q);
    UploadWritesHead(o, c, s, q);
    PutKeepsNames(s.heads, UploadVerdict(o, s, q).head);
  }

  lemma UploadWritesHead(o: Oracle, c: Config, s: Store, q: UploadRequest)
    requires UploadNext(o, c, s, q).heads != s.heads
    ensures UploadVerdict(o, s, q).Commit? && UniqueAllows(s.heads, UploadVerdict(o, s, q).head)
    ensures var h := UploadVerdict(o, s, q).head;
            UploadNext(o, c, s, q).heads == s.heads[h.fileId := h] && h.pseudonym == q.path &&
              h.contentHash == o.hash(q.body)
  {
    AppliedWritesHead(o, c, s, q, UploadVerdict(o, s, q));
    CommitNamesRequest(o, s, q);
  }

  lemma AppliedWritesHead(o: Oracle, c: Config, s: Store, q: UploadRequest, verdict: Verdict)
    requires UploadApply(o, c, s, q, verdict).heads != s.heads
    ensures verdict.Commit? && UniqueAllows(s.heads, verdict.head) &&
            UploadApply(o, c, s, q, verdict).heads == s.heads[verdict.head.fileId := verdict.head]
  {
  }

  lemma CommitNamesRequest(o: Oracle, s: Store, q: UploadRequest)
    requires UploadVerdict(o, s, q).Commit?
    ensures UploadVerdict(o, s, q).head.pseudonym == q.path && UploadVerdict(o, s, q).head.contentHash == o.hash(q.body)
  {
  }

  lemma RestoreTwice(o: Oracle, c: Config, s: Store, q: RestoreRequest, q': RestoreRequest)
    requires Sound(s) && q' == q.(now := q'.now) && RestoreNext(o, c, s, q).repo.head > s.repo.head
    ensures RestoreVerdict(o, RestoreNext(o, c, s, q), q') == InEffect
    ensures RestoreNext(o, c, RestoreNext(o, c, s, q), q') == RestoreNext(o, c, s, q)
  {
    RestoreIsCommitted(o, c, s, q);
    RestoredAgain(o, s.repo, RestoreNext(o, c, s, q), q, q');
  }

  lemma RestoreIsCommitted(o: Oracle, c: Config, s: Store, q: RestoreRequest)
    requires Sound(s) && RestoreNext(o, c, s, q).repo.head > s.repo.head
    ensures var s' := RestoreNext(o, c, s, q);
            q.fileId in s'.heads && q.fileId !in s'.tombs && s'.repo == s.repo.(head := s.repo.head + 1) &&
              RestoreAdmissible(o, s.repo, q)
  {
    var e := RestoreEffect(o, c, s, q);
  }

  /** The checks on a restore that do not look at its object. */
  predicate RestoreAdmissible(o: Oracle, r: RepoState, q: RestoreRequest) {
    IsHex32(q.fileId) && o.validPath(q.pseudonym) && GuardWrite(r, q.client, q.deviceId, q.pseudonym).None? &&
    !(ByIdOnly(r) && (q.pseudonym != q.fileId || q.metaEnc == "" || q.canonicalHash == ""))
  }

  lemma RestoredAgain(o: Oracle, r: RepoState, s: Store, q: RestoreRequest, q': RestoreRequest)
    requires q' == q.(now := q'.now) && q.fileId in s.heads && q.fileId !in s.tombs
    requires RestoreAdmissible(o, r, q) && s.repo == r.(head := s.repo.head)
    ensures RestoreVerdict(o, s, q') == InEffect
  {
    assert GuardWrite(s.repo, q.client, q.deviceId, q.pseudonym) == GuardWrite(r, q.client, q.deviceId, q.pseudonym);
  }

  lemma DeleteTwice(o: Oracle, c: Config, s: Store, q: DeleteRequest, q': DeleteRequest)
    requires Sound(s) && q' == q.(now := q'.now) && DeleteVerdict(o, s, q).Commit?
    ensures DeleteVerdict(o, DeleteNext(o, c, s, q), q') == InEffect
    ensures DeleteNext(o, c, DeleteNext(o, c, s, q), q') == DeleteNext(o, c, s, q)
  {
    NamedIs(s.heads, q.path);
    DeleteIsCommitted(c, s, q, DeleteVerdict(o, s, q));
    DeletedAgain(o, s, DeleteNext(o, c, s, q), q, q');
  }

  /** What a delete leaves of its object: a deletion under its name, and nothing live there. */
  ghost predicate GoneAs(s: Store, s': Store, name: string) {
    (exists f :: f in s'.tombs && s'.tombs[f].lastPseudonym == name) &&
      (forall f :: f in s'.heads ==> f in s.heads && s'.heads[f] == s.heads[f]) &&
    (forall f :: f in s'.heads ==> s'.heads[f].pseudonym != name) && s'.repo == s.repo.(head := s.repo.head + 1)
  }

  lemma DeleteIsCommitted(c: Config, s: Store, q: DeleteRequest, verdict: Verdict)
    requires NamesUnique(s.heads) && verdict.Commit? && verdict.head.fileId in s.heads &&
             s.heads[verdict.head.fileId] == verdict.head
    requires verdict.head.pseudonym == q.path
    ensures GoneAs(s, DeleteApply(c, s, q, verdict), q.path)
  {
    var s', f := DeleteApply(c, s, q, verdict), verdict.head.fileId;
    assert s'.heads == s.heads - {f};
    assert f in s'.tombs && s'.tombs[f].lastPseudonym == q.path;
  }

  lemma DeletedAgain(o: Oracle, s: Store, s': Store, q: DeleteRequest, q': DeleteRequest)
    requires NamesUnique(s.heads) && GoneAs(s, s', q.path) && q' == q.(now := q'.now) && DeleteVerdict(o, s, q).Commit?
    ensures DeleteVerdict(o, s', q') == InEffect
  {
    assert GuardWrite(s'.repo, q.client, q.deviceId, q.path) == GuardWrite(s.repo, q.client, q.deviceId, q.path);
    assert Named(s'.heads, q.path).None?;
  }

  /** A committed rename sent again also changes nothing, but it is never answered with the
      saved result: its own metadata generation, or its own change of name, stands in the way
      before the operation id is looked at. */
  lemma RenameTwice(o: Oracle, s: Store, q: RenameRequest, q': RenameRequest)
    requires Sound(s) && q' == q.(now := q'.now)
    requires RenameVerdict(o, s, q).Commit? && UniqueAllows(s.heads, RenameVerdict(o, s, q).head)
    ensures RenameVerdict(o, RenameNext(o, s, q), q') == Refuse(if q.from == q.to then MetaCas else NotFound)
    ensures RenameNext(o, RenameNext(o, s, q), q') == RenameNext(o, s, q)
  {
    var h := RenameVerdict(o, s, q).head;
    var heads := s.heads[h.fileId := h];
    assert RenameNext(o, s, q).heads == heads;
    NamedIs(s.heads, q.from);
    PutKeepsNames(s.heads, h);
    NamedIs(heads, q.from);
  }
}
