/** An object's newest version stays, whatever is pruned and however stale the list of what to prune. */
module Newest {
  import opened Options
  import opened Tables
  import opened Requests
  import opened Steps
  import opened Effects
  import opened Runs
  import opened Budget

  /** For every version there was, there is one of the object that is as new or newer. */
  ghost predicate NoneLost(versions: map<VersionKey, Version>, versions': map<VersionKey, Version>) {
    forall k :: k in versions ==> AsNewIn(versions', k)
  }

  ghost predicate AsNewIn(versions: map<VersionKey, Version>, k: VersionKey) {
    exists j :: j in versions && j.0 == k.0 && k.1 <= j.1
  }

  lemma AddingLosesNone(versions: map<VersionKey, Version>, versions': map<VersionKey, Version>)
    requires versions.Keys <= versions'.Keys
    ensures NoneLost(versions, versions')
  {
  }

  lemma DroppingLosesNone(versions: map<VersionKey, Version>, keys: set<VersionKey>)
    requires keys <= NonNewest(versions)
    ensures NoneLost(versions, Without(versions, keys))
  {
    DroppingKeepsNewest(versions, keys);
    forall k | k in versions ensures AsNewIn(Without(versions, keys), k) {
      var j := NewestExists(versions, k, |Newer(versions, k)|);
    }
  }

  lemma LosesNoneTwice(v0: map<VersionKey, Version>, v1: map<VersionKey, Version>, v2: map<VersionKey, Version>)
    requires NoneLost(v0, v1) && NoneLost(v1, v2)
    ensures NoneLost(v0, v2)
  {
    forall k | k in v0 ensures AsNewIn(v2, k) {
      var j :| j in v1 && j.0 == k.0 && k.1 <= j.1;
      assert AsNewIn(v2, j);
    }
  }

  lemma PrunedLosesNone(o: Oracle, c: Config, s: Store, h: Head, now: int, collect: bool)
    ensures NoneLost(s.versions, UploadPruned(o, c, s, h, now, collect).versions)
  {
    if c.historyEnabled {
      var (days, max) := RetentionFor(o, c, s.repo.meta, h.pseudonym);
      DroppingLosesNone(s.versions, Expired(s.versions, h.fileId, now, days, max));
    } else {
      AddingLosesNone(s.versions, s.versions);
    }
  }

  lemma WrittenLosesNone(c: Config, s: Store, h: Head, q: UploadRequest)
    ensures NoneLost(s.versions, UploadWritten(c, s, h, q).versions)
  {
    AddingLosesNone(s.versions, UploadWritten(c, s, h, q).versions);
  }

  lemma CommittedLosesNone(o: Oracle, c: Config, s: Store, h: Head, q: UploadRequest)
    ensures NoneLost(s.versions, UploadCommitted(o, c, s, h, q).versions)
  {
    var written := UploadWritten(c, s, h, q);
    WrittenLosesNone(c, s, h, q);
    PrunedLosesNone(o, c, written, h, q.now, q.fault != AfterCommit);
    LosesNoneTwice(s.versions, written.versions, UploadCommitted(o, c, s, h, q).versions);
  }

  lemma UploadLosesNone(o: Oracle, c: Config, s: Store, q: UploadRequest, verdict: Verdict)
    ensures NoneLost(s.versions, UploadApply(o, c, s, q, verdict).versions)
  {
    AddingLosesNone(s.versions, s.versions);
    if verdict.Commit? {
      var blobs := StoreBlob(o, c.strictVerify, s.blobs, verdict.head.blobId, q.body, q.fault, q.quarantineFull).1;
      CommittedLosesNone(o, c, s.(blobs := blobs), verdict.head, q);
    }
  }

  lemma WriteLosesNone(o: Oracle, c: Config, s: Store, step: Step)
    requires WritesObjects(step)
    ensures NoneLost(s.versions, AfterWrite(o, c, s, step).versions)
  {
    match step
    case Upload(q) => UploadLosesNone(o, c, s, q, UploadVerdict(o, s, q));
    case DeleteObject(q) => DeleteAddsVersions(c, s, q, DeleteVerdict(o, s, q));
    case Rename(q) =>
    case RestoreObject(q) => RestoreAddsVersions(c, s, q, RestoreVerdict(o, s, q));
    case MigrateObject(name, metaEnc, canonicalHash, device, now) =>
      MigrationKeepsVersions(s, Named(s.heads, name), now,
        MigrateObjectVerdict(s, name, metaEnc, canonicalHash, device, now));
  }

  lemma DeleteAddsVersions(c: Config, s: Store, q: DeleteRequest, verdict: Verdict)
    ensures NoneLost(s.versions, DeleteApply(c, s, q, verdict).versions)
  {
    AddingLosesNone(s.versions, DeleteApply(c, s, q, verdict).versions);
  }

  lemma RestoreAddsVersions(c: Config, s: Store, q: RestoreRequest, verdict: Verdict)
    ensures NoneLost(s.versions, RestoreApply(c, s, q, verdict).versions)
  {
    AddingLosesNone(s.versions, RestoreApply(c, s, q, verdict).versions);
  }

  lemma MigrationKeepsVersions(s: Store, cur: Option<Head>, now: int, verdict: Verdict)
    ensures NoneLost(s.versions, MigrateObjectApply(s, cur, now, verdict).versions)
  {
  }

  lemma PruneLosesNone(s: Store, keys: set<VersionKey>)
    ensures NoneLost(s.versions, PruneNext(s, keys).versions)
  {
    if forall k :: k in keys ==> k in s.versions && Newer(s.versions, k) != {} {
      DroppingLosesNone(s.versions, keys);
      assert PruneNext(s, keys).versions == Without(s.versions, keys);
    }
  }

  lemma SweepLosesNone(c: Config, s: Store, step: Step)
    requires LogDense(s) && Sweeps(step)
    ensures NoneLost(s.versions, AfterSweep(c, s, step).versions)
  {
    match step
    case Prune(keys) => PruneLosesNone(s, keys);
    case MigrateTombstone(fileId, canonicalHash, device) => ConversionOf(s, fileId, canonicalHash, device);
    case Complete(id, device, shares, sentinels, erasure) => CompletionOf(s, id, device, shares, sentinels, erasure);
    case TrimLog(now) => TrimmedLog(c, s, now);
    case Purge(_) =>
    case Collect(_) =>
    case Damage(_, _) =>
  }

  lemma StepLosesNone(o: Oracle, c: Config, s: Store, step: Step)
    requires LogDense(s)
    ensures NoneLost(s.versions, Next(o, c, s, step).versions)
  {
    if WritesObjects(step) { WriteLosesNone(o, c, s, step); }
    else if Sweeps(step) { SweepLosesNone(c, s, step); }
    else { ScalarSteps(o, c, s, step); }
  }

  /** In every run the newest version an object ever had stays, until a newer one takes its place. */
  lemma {:induction false} RunLosesNone(o: Oracle, c: Config, s: Store, steps: seq<Step>)
    requires Sound(s)
    ensures NoneLost(s.versions, Run(o, c, s, steps).versions)
  {
    if steps != [] {
      var s0 := Run(o, c, s, steps[..|steps| - 1]);
      RunKeepsSound(o, c, s, steps[..|steps| - 1]);
      RunLosesNone(o, c, s, steps[..|steps| - 1]);
      StepLosesNone(o, c, s0, steps[|steps| - 1]);
      LosesNoneTwice(s.versions, s0.versions, Run(o, c, s, steps).versions);
    } else {
      AddingLosesNone(s.versions, s.versions);
    }
  }

  /** The budget loop picks its victims before it takes the lock.  Whatever happens in between, none
      of them is its object's newest by the time it goes. */
  lemma StaleVictimsAreNotNewest(o: Oracle, c: Config, s: Store, steps: seq<Step>, victims: set<VersionKey>)
    requires Sound(s) && victims <= NonNewest(s.versions)
    ensures var versions := Run(o, c, s, steps).versions;
            victims * versions.Keys <= NonNewest(versions) &&
            forall k :: k in versions && Newer(versions, k) == {} ==> k in Without(versions, victims)
  {
    var versions := Run(o, c, s, steps).versions;
    RunLosesNone(o, c, s, steps);
    forall k | k in victims && k in versions ensures Newer(versions, k) != {} {
      var j :| j in Newer(s.versions, k);
      assert AsNewIn(versions, j);
      var i :| i in versions && i.0 == j.0 && j.1 <= i.1;
      assert i in Newer(versions, k);
    }
  }
}
