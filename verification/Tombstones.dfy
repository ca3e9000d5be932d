/** Deleted objects never come back by accident. */
module Tombstones {
  import opened Options
  import opened Tables
  import opened Requests
  import opened Steps
  import opened Effects
  import opened Runs

  /** A restore that names exactly this deletion, with a content newer than the deleted one. */
  predicate ExplicitRestore(step: Step, t: Tombstone) {
    step.RestoreObject? && step.restore.fileId == t.fileId && step.restore.expectedRevision == t.deletionRevision &&
    (t.contentGeneration > 0 ==> step.restore.contentGeneration > t.contentGeneration)
  }

  /** A purge when every device that is not revoked, at least one, has passed the deletion. */
  predicate ConfirmedPurge(c: Config, s: Store, step: Step, t: Tombstone) {
    step.Purge? && c.tombstoneDays > 0 && ActiveDevices(s) != {} && Purgeable(s, t, step.now)
  }

  /** There are two ways out of the tombstone table and no third. */
  lemma TombstoneLeaves(o: Oracle, c: Config, s: Store, step: Step, f: string)
    requires Sound(s) && f in s.tombs
    ensures f !in Next(o, c, s, step).tombs ==>
              (ExplicitRestore(step, s.tombs[f]) && f in Next(o, c, s, step).heads) ||
                ConfirmedPurge(c, s, step, s.tombs[f])
    ensures f in Next(o, c, s, step).tombs ==> SameDeletion(s.tombs[f], Next(o, c, s, step).tombs[f])
  {
    var s' := Next(o, c, s, step);
    var e := StepEffect(o, c, s, step);
    if f in s'.tombs {
      TombstoneStays(s, s', e, f);
    } else if e.Quiet? {
    } else {
      RevivalTakes(s, s', e, f);
      RestoreNamesDeletion(o, s, step.restore);
    }
  }

  lemma TombstoneStays(s: Store, s': Store, e: Effect, f: string)
    requires Sound(s) && HasEffect(s, s', e) && f in s.tombs && f in s'.tombs
    ensures SameDeletion(s.tombs[f], s'.tombs[f])
  {
  }

  lemma RevivalTakes(s: Store, s': Store, e: Effect, f: string)
    requires Sound(s) && HasEffect(s, s', e) && !e.Quiet? && f in s.tombs && f !in s'.tombs
    ensures e.Wrote? && e.kind == Revived && e.h.fileId == f && f in s'.heads
  {
  }

  lemma RestoreNamesDeletion(o: Oracle, s: Store, q: RestoreRequest)
    requires RestoreVerdict(o, s, q).Commit?
    ensures q.fileId in s.tombs && q.expectedRevision == s.tombs[q.fileId].deletionRevision
    ensures s.tombs[q.fileId].contentGeneration > 0 ==> q.contentGeneration > s.tombs[q.fileId].contentGeneration
  {
  }

  ghost predicate Dead(s: Store, f: string) {
    f in s.ledger && !s.ledger[f].live
  }

  lemma StaysDead(o: Oracle, c: Config, s: Store, step: Step, f: string)
    requires Sound(s) && Dead(s, f) && (step.RestoreObject? && step.restore.fileId == f ==> f !in s.tombs)
    ensures Dead(Next(o, c, s, step), f)
    ensures f !in s.tombs ==> f !in Next(o, c, s, step).tombs
  {
    var e := StepEffect(o, c, s, step);
    DeadByEffect(s, Next(o, c, s, step), e, f);
  }

  lemma DeadByEffect(s: Store, s': Store, e: Effect, f: string)
    requires Sound(s) && HasEffect(s, s', e) && Dead(s, f) &&
             (e.Wrote? && e.kind == Revived && e.h.fileId == f ==> f !in s.tombs)
    ensures Dead(s', f)
    ensures f !in s.tombs ==> f !in s'.tombs
  {
  }

  /** Step i of the run is a restore of the object, and it is committed. */
  ghost predicate RestoredAt(o: Oracle, c: Config, s: Store, steps: seq<Step>, f: string, i: nat) {
    i < |steps| && steps[i].RestoreObject? && steps[i].restore.fileId == f &&
    RestoreVerdict(o, Run(o, c, s, steps[..i]), steps[i].restore).Commit?
  }

  lemma RestoredEarlier(o: Oracle, c: Config, s: Store, steps: seq<Step>, f: string, n: nat, i: nat)
    requires n <= |steps| && RestoredAt(o, c, s, steps[..n], f, i)
    ensures RestoredAt(o, c, s, steps, f, i)
  {
    assert steps[..n][..i] == steps[..i];
  }

  lemma RestoredLast(o: Oracle, c: Config, s: Store, steps: seq<Step>, f: string)
    requires Sound(s) && steps != [] && Dead(Run(o, c, s, steps[..|steps| - 1]), f) && !Dead(Run(o, c, s, steps), f)
    ensures RestoredAt(o, c, s, steps, f, |steps| - 1)
  {
    RunKeepsSound(o, c, s, steps[..|steps| - 1]);
    RestoredNow(o, c, Run(o, c, s, steps[..|steps| - 1]), steps[|steps| - 1], f);
  }

  /** A deleted object stops being dead only at a step that is a restore of it and is committed. */
  lemma {:induction false} NoSilentResurrection(o: Oracle, c: Config, s: Store, steps: seq<Step>, f: string)
    returns (i: nat)
    requires Sound(s) && Dead(s, f)
    ensures Dead(Run(o, c, s, steps), f) || RestoredAt(o, c, s, steps, f, i)
    ensures f in Run(o, c, s, steps).heads ==> RestoredAt(o, c, s, steps, f, i)
  {
    i := 0;
    if steps != [] && !Dead(Run(o, c, s, steps), f) {
      var n := |steps| - 1;
      if Dead(Run(o, c, s, steps[..n]), f) {
        i := n;
        RestoredLast(o, c, s, steps, f);
      } else {
        i := NoSilentResurrection(o, c, s, steps[..n], f);
        RestoredEarlier(o, c, s, steps, f, n, i);
      }
    }
    RunKeepsSound(o, c, s, steps);
  }

  lemma RestoredNow(o: Oracle, c: Config, s: Store, step: Step, f: string)
    requires Sound(s) && Dead(s, f)
    ensures Dead(Next(o, c, s, step), f) ||
            (step.RestoreObject? && step.restore.fileId == f && RestoreVerdict(o, s, step.restore).Commit?)
  {
    var e := StepEffect(o, c, s, step);
    if !(e.Wrote? && e.h.fileId == f) { DeadStays(s, Next(o, c, s, step), e, f); }
  }

  lemma DeadStays(s: Store, s': Store, e: Effect, f: string)
    requires Sound(s) && HasEffect(s, s', e) && Dead(s, f) && !(e.Wrote? && e.h.fileId == f)
    ensures Dead(s', f)
  {
  }

  /** A purged object is never live again, not even by a restore, in any run at all. */
  lemma {:induction false} PurgedForever(o: Oracle, c: Config, s: Store, steps: seq<Step>, f: string)
    requires Sound(s) && Dead(s, f) && f !in s.tombs
    ensures var s' := Run(o, c, s, steps); Dead(s', f) && f !in s'.tombs && f !in s'.heads
  {
    RunKeepsSound(o, c, s, steps);
    if steps != [] {
      var init := steps[..|steps| - 1];
      RunKeepsSound(o, c, s, init);
      PurgedForever(o, c, s, init, f);
      StaysDead(o, c, Run(o, c, s, init), steps[|steps| - 1], f);
    }
  }

  /** An upload to a name that has no live object but is barred by a deletion, through the name
      or through its canonical key, changes nothing whatever else the request says; and it is
      told about the deletion exactly when the request is otherwise admissible. */
  lemma BarredUploadChangesNothing(o: Oracle, c: Config, s: Store, q: UploadRequest)
    requires Named(s.heads, q.path).None? && Barred(s.tombs, q.path, UploadKey(o, None, q))
    ensures UploadNext(o, c, s, q) == s
    ensures UploadVerdict(o, s, q) == Refuse(DeletedConflict) <==>
              UploadMalformed(o, q).None? && UploadForbidden(s, None, q).None?
  {
  }

  /** The only new identities are ones no object, live or deleted or purged, ever had. */
  lemma NewObjectsAreNew(o: Oracle, c: Config, s: Store, step: Step, f: string)
    requires Sound(s) && f in Next(o, c, s, step).heads && f !in s.heads
    ensures f !in s.ledger || (f in s.tombs && ExplicitRestore(step, s.tombs[f]))
  {
    var e := StepEffect(o, c, s, step);
    if e.kind == Revived { RestoreNamesDeletion(o, s, step.restore); }
  }
}
