/**
 A request that was committed and arrives once more, any number of steps later.  No object is
 written twice by it; what else it may do, and when, is said exactly.
 */
module Retries {
  import opened Bytes
  import opened Options
  import opened Tables
  import opened Requests
  import opened Steps
  import opened Effects
  import opened Runs
  import opened Idempotence

  // ---------- what stays on record ----------

  lemma TrimKeepsChange(log: seq<Change>, from: int, to: int, change: Change)
    requires from <= to <= from + |log| && change in log && to < change.sequence
    requires forall i :: 0 <= i < |log| ==> log[i].sequence == from + 1 + i
    ensures change in After(log, to)
  {
    AfterDense(log, from, to);
    var i :| 0 <= i < |log| && log[i] == change;
    assert log[to - from..][i - (to - from)] == log[i];
  }

  lemma EffectKeepsChange(s: Store, s': Store, e: Effect, change: Change)
    requires LogDense(s) && HasEffect(s, s', e) && change in s.log && s'.repo.minRetained < change.sequence
    ensures change in s'.log
  {
    if e.Quiet? { TrimKeepsChange(s.log, s.repo.minRetained, s'.repo.minRetained, change); }
  }

  /** A change stays in the log of every run until the watermark has passed it. */
  lemma {:induction false} ChangeStays(o: Oracle, c: Config, s: Store, steps: seq<Step>, change: Change)
    requires Sound(s) && change in s.log && Run(o, c, s, steps).repo.minRetained < change.sequence
    ensures change in Run(o, c, s, steps).log
  {
    if steps != [] {
      var init, step := steps[..|steps| - 1], steps[|steps| - 1];
      var s0 := Run(o, c, s, init);
      RunKeepsSound(o, c, s, init);
      StepKeepsSound(o, c, s0, step);
      ChangeStays(o, c, s, init, change);
      var e := StepEffect(o, c, s0, step);
      EffectKeepsChange(s0, Next(o, c, s0, step), e, change);
    }
  }

  lemma IsLogged(log: seq<Change>, change: Change)
    requires change in log && change.operationId != ""
    ensures Logged(log, change.fileId, change.operationId)
  {
    var i :| 0 <= i < |log| && log[i] == change;
  }

  // ---------- revisions and metadata generations do not come back ----------

  /** A known object that, as long as there is a record of it, is at this revision and metadata
      generation or later. */
  ghost predicate Past(s: Store, f: string, revision: int, generation: int) {
    f in s.ledger &&
    (f in s.heads ==> s.heads[f].revision >= revision && s.heads[f].metaGeneration >= generation) &&
    (f in s.tombs ==> s.tombs[f].deletionRevision >= revision && s.tombs[f].metaGeneration >= generation)
  }

  /** A head that is written carries its object's metadata generation on. */
  ghost predicate CarriesOn(s: Store, h: Head) {
    (h.fileId in s.heads ==> h.metaGeneration >= s.heads[h.fileId].metaGeneration) &&
    (h.fileId in s.tombs ==> h.metaGeneration >= s.tombs[h.fileId].metaGeneration)
  }

  lemma UploadCarriesOn(o: Oracle, s: Store, q: UploadRequest)
    requires Sound(s) && UploadVerdict(o, s, q).Commit?
    ensures CarriesOn(s, UploadVerdict(o, s, q).head)
  {
    NamedIs(s.heads, q.path);
    FirstUnusedIsUnused(s.ledger, q.freshIds, 4);
  }

  lemma RenameCarriesOn(o: Oracle, s: Store, q: RenameRequest)
    requires Sound(s) && RenameVerdict(o, s, q).Commit?
    ensures CarriesOn(s, RenameVerdict(o, s, q).head)
  {
    NamedIs(s.heads, q.from);
  }

  lemma RestoreCarriesOn(o: Oracle, s: Store, q: RestoreRequest)
    requires Sound(s) && RestoreVerdict(o, s, q).Commit?
    ensures CarriesOn(s, RestoreVerdict(o, s, q).head)
  {
  }

  lemma MigrationCarriesOn(s: Store, name: string, metaEnc: string, canonicalHash: string, device: string, now: int)
    requires Sound(s) && MigrateObjectVerdict(s, name, metaEnc, canonicalHash, device, now).Commit?
    ensures CarriesOn(s, MigrateObjectVerdict(s, name, metaEnc, canonicalHash, device, now).head)
  {
    NamedIs(s.heads, name);
  }

  lemma VerdictCarriesOn(o: Oracle, s: Store, step: Step)
    requires Sound(s) && VerdictOf(o, s, step).Commit?
    ensures CarriesOn(s, VerdictOf(o, s, step).head)
  {
    if step.Upload? { UploadCarriesOn(o, s, step.upload); }
    else if step.Rename? { RenameCarriesOn(o, s, step.rename); }
    else if step.RestoreObject? { RestoreCarriesOn(o, s, step.restore); }
    else { MigrationCarriesOn(s, step.name, step.metaEnc, step.canonicalHash, step.device, step.now); }
  }

  lemma DeletionCarriesOn(o: Oracle, c: Config, s: Store, q: DeleteRequest, e: Effect)
    requires Sound(s) && HasEffect(s, DeleteNext(o, c, s, q), e) && e.Erased?
    ensures e.t.metaGeneration == s.heads[e.t.fileId].metaGeneration
  {
    NamedIs(s.heads, q.path);
    DeletedTombstone(c, s, q, DeleteVerdict(o, s, q), e.t.fileId);
  }

  lemma DeletedTombstone(c: Config, s: Store, q: DeleteRequest, verdict: Verdict, f: string)
    requires f in s.heads && f !in DeleteApply(c, s, q, verdict).heads
    requires verdict.Commit? ==> verdict.head.fileId in s.heads && s.heads[verdict.head.fileId] == verdict.head
    ensures f in DeleteApply(c, s, q, verdict).tombs &&
            DeleteApply(c, s, q, verdict).tombs[f].metaGeneration == s.heads[f].metaGeneration
  {
  }

  lemma EffectKeepsPast(s: Store, s': Store, e: Effect, f: string, revision: int, generation: int)
    requires Sound(s) && HasEffect(s, s', e) && Past(s, f, revision, generation)
    requires e.Wrote? ==> CarriesOn(s, e.h)
    requires e.Erased? ==> e.t.metaGeneration == s.heads[e.t.fileId].metaGeneration
    ensures Past(s', f, revision, generation)
  {
  }

  lemma StepKeepsPast(o: Oracle, c: Config, s: Store, step: Step, f: string, revision: int, generation: int)
    requires Sound(s) && Past(s, f, revision, generation)
    ensures Past(Next(o, c, s, step), f, revision, generation)
  {
    var e := StepEffect(o, c, s, step);
    if e.Wrote? { VerdictCarriesOn(o, s, step); }
    if e.Erased? { DeletionCarriesOn(o, c, s, step.delete, e); }
    EffectKeepsPast(s, Next(o, c, s, step), e, f, revision, generation);
  }

  /** No run takes an object back to a revision or metadata generation it has had. */
  lemma {:induction false} RunKeepsPast(o: Oracle, c: Config, s: Store, steps: seq<Step>, f: string, revision: int,
          generation: int)
    requires Sound(s) && Past(s, f, revision, generation)
    ensures Sound(Run(o, c, s, steps)) && Past(Run(o, c, s, steps), f, revision, generation)
  {
    RunKeepsSound(o, c, s, steps);
    if steps != [] {
      var init := steps[..|steps| - 1];
      RunKeepsSound(o, c, s, init);
      RunKeepsPast(o, c, s, init, f, revision, generation);
      StepKeepsPast(o, c, Run(o, c, s, init), steps[|steps| - 1], f, revision, generation);
    }
  }

  /** What a committed step leaves: a sound state, its change at the end of the log, and the object
      past the revision and the metadata generation it had. */
  ghost predicate Left(s: Store, s': Store, f: string, op: string, revision: int, generation: int) {
    Sound(s') && s'.log != [] && s'.repo.head == s.repo.head + 1 &&
    s'.log[|s'.log| - 1].fileId == f && s'.log[|s'.log| - 1].operationId == op &&
    s'.log[|s'.log| - 1].sequence == s.repo.head + 1 && Past(s', f, revision, generation)
  }

  /** It keeps both in every run that goes on from there. */
  lemma LaterOn(o: Oracle, c: Config, s: Store, s1: Store, steps: seq<Step>, f: string, op: string, revision: int,
          generation: int)
    requires Left(s, s1, f, op, revision, generation)
    ensures var s2 := Run(o, c, s1, steps);
            Sound(s2) && Past(s2, f, revision, generation) &&
            (op != "" && s2.repo.minRetained <= s.repo.head ==> Logged(s2.log, f, op))
  {
    RunKeepsPast(o, c, s1, steps, f, revision, generation);
    var change := s1.log[|s1.log| - 1];
    if op != "" && Run(o, c, s1, steps).repo.minRetained <= s.repo.head {
      ChangeStays(o, c, s1, steps, change);
      IsLogged(Run(o, c, s1, steps).log, change);
    }
  }

  lemma WriteLeaves(s: Store, s': Store, e: Effect)
    requires Sound(s) && HasEffect(s, s', e) && e.Wrote?
    ensures Left(s, s', e.h.fileId, e.c.operationId, e.h.revision, e.h.metaGeneration)
  {
    EffectKeepsSound(s, s', e);
  }

  lemma EraseLeaves(s: Store, s': Store, e: Effect)
    requires Sound(s) && HasEffect(s, s', e) && e.Erased?
    ensures Left(s, s', e.t.fileId, e.c.operationId, e.t.deletionRevision, e.t.metaGeneration)
  {
    EffectKeepsSound(s, s', e);
  }

  // ---------- an upload ----------

  lemma UploadRevision(o: Oracle, s: Store, q: UploadRequest)
    requires UploadVerdict(o, s, q).Commit?
    ensures UploadVerdict(o, s, q).head.revision == q.baseRevision + 1 && UploadMalformed(o, q).None?
  {
  }

  lemma UploadLeaves(o: Oracle, c: Config, s: Store, q: UploadRequest) returns (generation: int)
    requires Sound(s) && UploadNext(o, c, s, q).repo.head > s.repo.head
    ensures UploadVerdict(o, s, q).Commit? && UploadMalformed(o, q).None?
    ensures Left(s, UploadNext(o, c, s, q), UploadVerdict(o, s, q).head.fileId, q.client.operationId,
              q.baseRevision + 1, generation)
  {
    var e := UploadEffect(o, c, s, q);
    generation := e.h.metaGeneration;
    WriteLeaves(s, UploadNext(o, c, s, q), e);
    UploadRevision(o, s, q);
  }

  /** The same upload would now be taken for another object than `f`: for a new one, or, over its
      content, for whatever has come to its name and stands at the very revision it was made against. */
  ghost predicate TakenForAnother(o: Oracle, s: Store, q: UploadRequest, f: string) {
    var cur := Named(s.heads, q.path);
    UploadForbidden(s, cur, q).None? &&
    if cur.None? then MakesAnother(o, s, q) else cur.value.fileId != f && Overwrites(o, s, q, cur.value)
  }

  ghost predicate MakesAnother(o: Oracle, s: Store, q: UploadRequest) {
    q.baseRevision == 0 && !Barred(s.tombs, q.path, UploadKey(o, None, q)) &&
    !Collides(s.heads, UploadKey(o, None, q), "") &&
    NewFileId(s.ledger, if ByIdOnly(s.repo) then q.path else q.clientFileId, q.freshIds).Some?
  }

  predicate Overwrites(o: Oracle, s: Store, q: UploadRequest, cur: Head) {
    cur.revision == q.baseRevision && cur.contentHash != o.hash(q.body) &&
    !Logged(s.log, cur.fileId, q.client.operationId) &&
    !(Generation(q.body).Some? && 0 < cur.contentGeneration && Generation(q.body).value <= cur.contentGeneration)
  }

  /** The upload does not touch the object: it is taken exactly for another one, and while its name
      stands for the object nothing changes, and the answer is that it is in effect when the content
      is the same or the log has the operation, and a conflict otherwise. */
  ghost predicate UploadSpares(o: Oracle, c: Config, s: Store, q: UploadRequest, f: string) {
    var cur, verdict := Named(s.heads, q.path), UploadVerdict(o, s, q);
    (verdict.Commit? <==> TakenForAnother(o, s, q, f)) && (verdict.Commit? ==> verdict.head.fileId != f) &&
    (!verdict.Commit? ==> UploadNext(o, c, s, q) == s) &&
    (cur.Some? && cur.value.fileId == f ==> UploadNext(o, c, s, q) == s) &&
    (cur.Some? && cur.value.fileId == f && UploadForbidden(s, cur, q).None? ==>
      verdict == if cur.value.contentHash == o.hash(q.body) || Logged(s.log, f, q.client.operationId)
        then InEffect else Refuse(Conflict))
  }

  lemma UploadAnswered(o: Oracle, c: Config, s: Store, q: UploadRequest, f: string)
    requires Sound(s) && UploadMalformed(o, q).None? && f in s.ledger
    requires f in s.heads ==> s.heads[f].revision > q.baseRevision
    ensures UploadSpares(o, c, s, q, f)
  {
    NamedIs(s.heads, q.path);
    FirstUnusedIsUnused(s.ledger, q.freshIds, 4);
  }

  /** A committed upload that arrives again, after any steps, does not touch its object; and the log
      has its operation until the watermark passes it. */
  lemma UploadAgain(o: Oracle, c: Config, s: Store, q: UploadRequest, q': UploadRequest, steps: seq<Step>)
    requires Sound(s) && SameUpload(q, q') && UploadNext(o, c, s, q).repo.head > s.repo.head
    ensures UploadVerdict(o, s, q).Commit?
    ensures var f, s2 := UploadVerdict(o, s, q).head.fileId, Run(o, c, UploadNext(o, c, s, q), steps);
            UploadSpares(o, c, s2, q', f) &&
            (q.client.operationId != "" && s2.repo.minRetained <= s.repo.head ==>
              Logged(s2.log, f, q.client.operationId))
  {
    var s1, f := UploadNext(o, c, s, q), UploadVerdict(o, s, q).head.fileId;
    var generation := UploadLeaves(o, c, s, q);
    LaterOn(o, c, s, s1, steps, f, q.client.operationId, q.baseRevision + 1, generation);
    SameForm(o, q, q');
    UploadAnswered(o, c, Run(o, c, s1, steps), q', f);
  }

  lemma SameForm(o: Oracle, q: UploadRequest, q': UploadRequest)
    requires SameUpload(q, q') && UploadMalformed(o, q).None?
    ensures UploadMalformed(o, q').None? && q'.baseRevision == q.baseRevision
  {
  }

  // ---------- a restore ----------

  /** A committed restore that arrives again, after any steps, changes nothing.  Where it is
      admissible it is answered as in effect while its change is in the log or its object lives;
      of an object deleted since, it names a deletion of the past. */
  lemma RestoreAgain(o: Oracle, c: Config, s: Store, q: RestoreRequest, q': RestoreRequest, steps: seq<Step>)
    requires Sound(s) && q' == q.(now := q'.now) && RestoreNext(o, c, s, q).repo.head > s.repo.head
    ensures var f, s2 := q.fileId, Run(o, c, RestoreNext(o, c, s, q), steps);
            RestoreNext(o, c, s2, q') == s2 && (RestoreAdmissible(o, s2.repo, q') ==>
              RestoreVerdict(o, s2, q') ==
                if Logged(s2.log, f, q.client.operationId) || f in s2.heads then InEffect
                else Refuse(if f in s2.tombs then StaleRevision else TombstonePurged)) &&
            (q.client.operationId != "" && s2.repo.minRetained <= s.repo.head ==>
              Logged(s2.log, f, q.client.operationId))
  {
    var s1 := RestoreNext(o, c, s, q);
    var e := RestoreEffect(o, c, s, q);
    WriteLeaves(s, s1, e);
    RestoreRevision(o, s, q);
    LaterOn(o, c, s, s1, steps, q.fileId, q.client.operationId, q.expectedRevision + 1, e.h.metaGeneration);
    RestoreAnswered(o, Run(o, c, s1, steps), q');
  }

  lemma RestoreRevision(o: Oracle, s: Store, q: RestoreRequest)
    requires RestoreVerdict(o, s, q).Commit?
    ensures RestoreVerdict(o, s, q).head.revision == q.expectedRevision + 1
  {
  }

  lemma RestoreAnswered(o: Oracle, s: Store, q: RestoreRequest)
    requires Sound(s) && q.fileId in s.ledger
    requires q.fileId in s.tombs ==> s.tombs[q.fileId].deletionRevision > q.expectedRevision
    ensures !RestoreVerdict(o, s, q).Commit?
    ensures RestoreAdmissible(o, s.repo, q) ==>
              RestoreVerdict(o, s, q) ==
                if Logged(s.log, q.fileId, q.client.operationId) || q.fileId in s.heads then InEffect
                else Refuse(if q.fileId in s.tombs then StaleRevision else TombstonePurged)
  {
  }

  // ---------- a delete ----------

  /** The delete does not touch the object: it deletes exactly whatever else has come to its name and
      stands at the given revision, and changes nothing otherwise. */
  ghost predicate DeleteSpares(o: Oracle, c: Config, s: Store, q: DeleteRequest, f: string) {
    var cur, verdict := Named(s.heads, q.path), DeleteVerdict(o, s, q);
    (verdict.Commit? <==>
      DeleteAdmissible(s.repo, q) && cur.Some? && cur.value.fileId != f && cur.value.revision == q.baseRevision) &&
    (!verdict.Commit? ==> DeleteNext(o, c, s, q) == s) &&
    (DeleteAdmissible(s.repo, q) && cur.None? ==>
      verdict == if Remembered(s.tombs, q.path) then InEffect else Refuse(NotFound))
  }

  /** A committed delete that arrives again, after any steps. */
  lemma DeleteAgain(o: Oracle, c: Config, s: Store, q: DeleteRequest, q': DeleteRequest, steps: seq<Step>)
    requires Sound(s) && q' == q.(now := q'.now) && DeleteVerdict(o, s, q).Commit?
    ensures var f, s2 := DeleteVerdict(o, s, q).head.fileId, Run(o, c, DeleteNext(o, c, s, q), steps);
            DeleteSpares(o, c, s2, q', f) &&
            (q.client.operationId != "" && s2.repo.minRetained <= s.repo.head ==>
              Logged(s2.log, f, q.client.operationId))
  {
    var s1, f := DeleteNext(o, c, s, q), DeleteVerdict(o, s, q).head.fileId;
    var generation := DeleteLeaves(o, c, s, q);
    LaterOn(o, c, s, s1, steps, f, q.client.operationId, q.baseRevision + 1, generation);
    DeleteAnswered(o, c, Run(o, c, s1, steps), q', f);
  }

  predicate DeleteAdmissible(r: RepoState, q: DeleteRequest) {
    GuardWrite(r, q.client, q.deviceId, q.path).None?
  }

  /** Some deletion was of an object of that name. */
  predicate Remembered(tombs: map<string, Tombstone>, name: string) {
    exists f :: f in tombs && tombs[f].lastPseudonym == name
  }

  lemma DeleteLeaves(o: Oracle, c: Config, s: Store, q: DeleteRequest) returns (generation: int)
    requires Sound(s) && DeleteVerdict(o, s, q).Commit?
    ensures o.validPath(q.path)
    ensures Left(s, DeleteNext(o, c, s, q), DeleteVerdict(o, s, q).head.fileId, q.client.operationId,
              q.baseRevision + 1, generation)
  {
    var e := DeleteEffect(o, c, s, q);
    generation := e.t.metaGeneration;
    DeletePublishes(o, c, s, q);
    EraseLeaves(s, DeleteNext(o, c, s, q), e);
    DeletedRevision(o, s, q);
  }

  lemma DeletedRevision(o: Oracle, s: Store, q: DeleteRequest)
    requires Sound(s) && DeleteVerdict(o, s, q).Commit?
    ensures var h := DeleteVerdict(o, s, q).head;
            h.fileId in s.heads && s.heads[h.fileId] == h && h.revision == q.baseRevision && o.validPath(q.path)
  {
    NamedIs(s.heads, q.path);
  }

  lemma DeleteAnswered(o: Oracle, c: Config, s: Store, q: DeleteRequest, f: string)
    requires Sound(s) && o.validPath(q.path) && (f in s.heads ==> s.heads[f].revision > q.baseRevision)
    ensures DeleteSpares(o, c, s, q, f)
  {
    NamedIs(s.heads, q.path);
  }

  // ---------- a rename ----------

  /** The rename does not touch the object: it renames exactly whatever else has come to the old name,
      and of the object itself it is told that its metadata generation has passed. */
  ghost predicate RenameSpares(o: Oracle, s: Store, q: RenameRequest, f: string) {
    var cur, verdict := Named(s.heads, q.from), RenameVerdict(o, s, q);
    (verdict.Commit? <==>
      RenameAdmissible(o, s.repo, q) && cur.Some? && cur.value.fileId != f && Renames(o, s, q, cur.value)) &&
    (!verdict.Commit? ==> RenameNext(o, s, q) == s) &&
    (RenameAdmissible(o, s.repo, q) ==>
      (cur.None? ==> verdict == Refuse(NotFound)) &&
      (cur.Some? && cur.value.fileId == f ==> verdict == Refuse(MetaCas)))
  }

  /** A committed rename that arrives again, after any steps: it is never answered from the log. */
  lemma RenameAgain(o: Oracle, c: Config, s: Store, q: RenameRequest, q': RenameRequest, steps: seq<Step>)
    requires Sound(s) && q' == q.(now := q'.now) && RenameNext(o, s, q).repo.head > s.repo.head
    ensures RenameVerdict(o, s, q).Commit?
    ensures var f, s2 := RenameVerdict(o, s, q).head.fileId, Run(o, c, RenameNext(o, s, q), steps);
            RenameSpares(o, s2, q', f) &&
            (q.client.operationId != "" && s2.repo.minRetained <= s.repo.head ==>
              Logged(s2.log, f, q.client.operationId))
  {
    var s1, f := RenameNext(o, s, q), RenameVerdict(o, s, q).head.fileId;
    var e := RenameEffect(o, s, q);
    WriteLeaves(s, s1, e);
    RenameGeneration(o, s, q);
    LaterOn(o, c, s, s1, steps, f, q.client.operationId, e.h.revision, q.baseMetaGeneration + 1);
    RenameAnswered(o, Run(o, c, s1, steps), q', f);
  }

  /** The checks on a rename that do not look at its object. */
  predicate RenameAdmissible(o: Oracle, r: RepoState, q: RenameRequest) {
    o.validPath(q.from) && o.validPath(q.to) && GuardWrite(r, q.client, q.deviceId, q.from).None? &&
    !(r.meta == MetaPlain && q.metaEnc != "") &&
    !(ByIdOnly(r) && (q.from != q.to || q.metaEnc == "" || q.canonicalHash == ""))
  }

  ghost predicate Renames(o: Oracle, s: Store, q: RenameRequest, cur: Head) {
    cur.metaGeneration == q.baseMetaGeneration && !Logged(s.log, cur.fileId, q.client.operationId) &&
    !(!ByIdOnly(s.repo) && q.to != q.from && Named(s.heads, q.to).Some?) &&
    !Collides(s.heads, if q.canonicalHash != "" then "h:" + q.canonicalHash else o.canonical(q.to), cur.fileId)
  }

  lemma RenameGeneration(o: Oracle, s: Store, q: RenameRequest)
    requires RenameVerdict(o, s, q).Commit?
    ensures RenameVerdict(o, s, q).head.metaGeneration == q.baseMetaGeneration + 1
  {
  }

  lemma RenameAnswered(o: Oracle, s: Store, q: RenameRequest, f: string)
    requires Sound(s) && (f in s.heads ==> s.heads[f].metaGeneration > q.baseMetaGeneration)
    ensures RenameSpares(o, s, q, f)
  {
    NamedIs(s.heads, q.from);
  }
}
