/** What the configured policies keep: versions by count and age, deletions by days, changes by days
    and count. */
module Policies {
  import opened Options
  import opened Tables
  import opened Requests
  import opened Steps
  import opened Effects
  import opened Runs
  import opened Outcomes
  import ServiceModule

  // ---------- versions ----------

  /** The configuration is accepted: no number in it is negative, and zero means without limit. */
  predicate Configured(c: Config) {
    c.noteDays >= 0 && c.noteMax >= 0 && c.attachmentDays >= 0 && c.attachmentMax >= 0
  }

  predicate IsNewest(versions: map<VersionKey, Version>, k: VersionKey) {
    forall j :: j in versions && j.0 == k.0 ==> j.1 <= k.1
  }

  /** At most so many versions of an object stay: the newest ones. */
  predicate CountKeeps(versions: map<VersionKey, Version>, k: VersionKey, max: int) {
    max == 0 || |set j | j in versions && j.0 == k.0 && j.1 > k.1| < max
  }

  /** A version stays for so many days. */
  predicate AgeKeeps(versions: map<VersionKey, Version>, k: VersionKey, now: int, days: int)
    requires k in versions
  {
    days == 0 || now <= days * 86400 || now - days * 86400 <= versions[k].createdAt
  }

  /** One policy keeps a version: it is the newest, or neither its number nor its age is up. */
  predicate PolicyKeeps(versions: map<VersionKey, Version>, k: VersionKey, now: int, days: int, max: int)
    requires k in versions
  {
    IsNewest(versions, k) || (CountKeeps(versions, k, max) && AgeKeeps(versions, k, now, days))
  }

  predicate NotePolicyKeeps(c: Config, versions: map<VersionKey, Version>, k: VersionKey, now: int)
    requires k in versions
  {
    PolicyKeeps(versions, k, now, c.noteDays, c.noteMax)
  }

  predicate AttachmentPolicyKeeps(c: Config, versions: map<VersionKey, Version>, k: VersionKey, now: int)
    requires k in versions
  {
    PolicyKeeps(versions, k, now, c.attachmentDays, c.attachmentMax)
  }

  /** What stays where the server cannot tell a note from an attachment: the newest version, and every
      other whose number is not up by one of the policies, nor its age by one of them. */
  predicate EitherLimitKeeps(c: Config, versions: map<VersionKey, Version>, k: VersionKey, now: int)
    requires k in versions
  {
    IsNewest(versions, k) ||
    ((CountKeeps(versions, k, c.noteMax) || CountKeeps(versions, k, c.attachmentMax)) &&
     (AgeKeeps(versions, k, now, c.noteDays) || AgeKeeps(versions, k, now, c.attachmentDays)))
  }

  /** What stays of an object that goes by a name. */
  predicate Stays(o: Oracle, c: Config, meta: MetaState, name: string, versions: map<VersionKey, Version>,
      k: VersionKey, now: int)
    requires k in versions
  {
    if meta == MetaVerifying || meta == MetaEncrypted then EitherLimitKeeps(c, versions, k, now)
    else if o.isNote(name) then NotePolicyKeeps(c, versions, k, now)
    else AttachmentPolicyKeeps(c, versions, k, now)
  }

  lemma NewestHasNoNewer(versions: map<VersionKey, Version>, k: VersionKey)
    ensures IsNewest(versions, k) <==> Newer(versions, k) == {}
  {
    if !IsNewest(versions, k) {
      var j :| j in versions && j.0 == k.0 && j.1 > k.1;
      assert j in Newer(versions, k);
    } else {
      assert forall j :: j !in Newer(versions, k);
    }
  }

  lemma ExpiredIsNotKept(versions: map<VersionKey, Version>, k: VersionKey, now: int, days: int, max: int)
    requires k in versions && days >= 0 && max >= 0
    ensures k in Expired(versions, k.0, now, days, max) <==> !PolicyKeeps(versions, k, now, days, max)
  {
    NewestHasNoNewer(versions, k);
    assert Newer(versions, k) == set j | j in versions && j.0 == k.0 && j.1 > k.1;
  }

  lemma LongerKeepsEither(c: Config, versions: map<VersionKey, Version>, k: VersionKey, now: int)
    requires Configured(c) && k in versions
    ensures PolicyKeeps(versions, k, now, Longer(c.noteDays, c.attachmentDays), Longer(c.noteMax, c.attachmentMax)) <==>
              EitherLimitKeeps(c, versions, k, now)
  {
  }

  /** The policy an object gets keeps exactly what it should by the name the object goes by: a note's
      in a plain vault is the policy of notes, an attachment's that of attachments, and in the end of
      the metadata migration and after it the longer limit of either, count and age each. */
  lemma PolicyIsExact(o: Oracle, c: Config, meta: MetaState, name: string, versions: map<VersionKey, Version>,
          k: VersionKey, now: int)
    requires Configured(c) && k in versions
    ensures var (days, max) := RetentionFor(o, c, meta, name);
            k !in Expired(versions, k.0, now, days, max) <==> Stays(o, c, meta, name, versions, k, now)
  {
    var (days, max) := RetentionFor(o, c, meta, name);
    ExpiredIsNotKept(versions, k, now, days, max);
    LongerKeepsEither(c, versions, k, now);
  }

  /** So where the server cannot tell, whatever either policy keeps stays. */
  lemma EitherPolicyIsKept(c: Config, versions: map<VersionKey, Version>, k: VersionKey, now: int)
    requires k in versions
    ensures NotePolicyKeeps(c, versions, k, now) || AttachmentPolicyKeeps(c, versions, k, now) ==>
              EitherLimitKeeps(c, versions, k, now)
  {
  }

  /** A committed upload takes versions of its own object only, and of these exactly the ones that, the
      new version counted in, the policy for its name does not keep. */
  lemma UploadTakesWhatIsUp(o: Oracle, c: Config, s: Store, q: UploadRequest) returns (h: Head, v: Version)
    requires Sound(s) && HistoryFits(s) && Configured(c) && c.historyEnabled
    requires UploadNext(o, c, s, q).repo.head > s.repo.head
    ensures h.pseudonym == q.path && h.contentHash == o.hash(q.body) && (h.fileId, h.revision) !in s.versions
    ensures v == NewVersion(h, q)
    ensures LeftByPolicy(o, c, s.repo.meta, q.path, h.fileId, q.now, s.versions[(h.fileId, h.revision) := v],
              UploadNext(o, c, s, q).versions)
  {
    h := UploadVerdict(o, s, q).head;
    UploadIsFresh(o, c, s, q);
    v := NewVersion(h, q);
    UploadPrunes(o, c, s, q, h, v);
    UnexpiredIsLeft(o, c, s.repo.meta, q.path, h.fileId, q.now, s.versions[(h.fileId, h.revision) := v]);
  }

  lemma UploadIsFresh(o: Oracle, c: Config, s: Store, q: UploadRequest)
    requires Sound(s) && HistoryFits(s) && UploadNext(o, c, s, q).repo.head > s.repo.head
    ensures UploadVerdict(o, s, q).Commit?
    ensures var h := UploadVerdict(o, s, q).head;
            h.pseudonym == q.path && h.contentHash == o.hash(q.body) && (h.fileId, h.revision) !in s.versions
  {
    var s' := UploadNext(o, c, s, q);
    var e := UploadEffect(o, c, s, q);
    assert e.Wrote? && UploadVerdict(o, s, q) == Commit(e.h);
    assert (e.h.fileId, e.h.revision) !in s.versions by { VersionKeyIsFresh(s, s', e); }
    UploadHasContent(o, s, q);
  }

  lemma UploadHasContent(o: Oracle, s: Store, q: UploadRequest)
    requires UploadVerdict(o, s, q).Commit?
    ensures UploadVerdict(o, s, q).head.pseudonym == q.path && UploadVerdict(o, s, q).head.contentHash == o.hash(q.body)
  {
  }

  /** The version a committed upload records. */
  function NewVersion(h: Head, q: UploadRequest): Version {
    Version(h.fileId, h.revision, h.contentGeneration, h.blobId, h.contentHash, h.size, h.mtime,
      if q.action.Some? then q.action.value else Upsert, q.deviceId, h.keyEpoch, q.client.operationId, q.now)
  }

  /** What is left of the versions of one object. */
  ghost predicate LeftByPolicy(o: Oracle, c: Config, meta: MetaState, name: string, f: string, now: int,
      all: map<VersionKey, Version>, left: map<VersionKey, Version>)
  {
    (forall k :: k in left <==> k in all && (k.0 == f ==> Stays(o, c, meta, name, all, k, now))) &&
    forall k :: k in left ==> left[k] == all[k]
  }

  lemma UnexpiredIsLeft(o: Oracle, c: Config, meta: MetaState, name: string, f: string, now: int,
          all: map<VersionKey, Version>)
    requires Configured(c)
    ensures var (days, max) := RetentionFor(o, c, meta, name);
            LeftByPolicy(o, c, meta, name, f, now, all,
              map k | k in all && k !in Expired(all, f, now, days, max) :: all[k])
  {
    forall k | k in all && k.0 == f
      ensures var (days, max) := RetentionFor(o, c, meta, name);
              k !in Expired(all, k.0, now, days, max) <==> Stays(o, c, meta, name, all, k, now)
    {
      PolicyIsExact(o, c, meta, name, all, k, now);
    }
  }

  lemma UploadPrunes(o: Oracle, c: Config, s: Store, q: UploadRequest, h: Head, v: Version)
    requires c.historyEnabled && h.pseudonym == q.path && (h.fileId, h.revision) !in s.versions
    requires UploadApply(o, c, s, q, Commit(h)).repo.head > s.repo.head
    requires v == NewVersion(h, q)
    ensures var all := s.versions[(h.fileId, h.revision) := v];
            var (days, max) := RetentionFor(o, c, s.repo.meta, q.path);
            UploadApply(o, c, s, q, Commit(h)).versions ==
              map k | k in all && k !in Expired(all, h.fileId, q.now, days, max) :: all[k]
  {
  }

  /** Retention of all objects: of a live object exactly what stays by its name stays.  A deleted
      object goes by its id, which is no note's name: in a plain vault what was a note falls under the
      policy of attachments. */
  lemma RetentionIsExact(o: Oracle, c: Config, s: Store, now: int, k: VersionKey)
    requires Configured(c) && k in s.versions
    ensures k.0 in s.heads ==>
              (k !in ServiceModule.Due(o, c, s, now) <==>
                Stays(o, c, s.repo.meta, s.heads[k.0].pseudonym, s.versions, k, now))
    ensures k.0 !in s.heads && !o.isNote(k.0) && s.repo.meta != MetaVerifying && s.repo.meta != MetaEncrypted ==>
              (k !in ServiceModule.Due(o, c, s, now) <==> AttachmentPolicyKeeps(c, s.versions, k, now))
  {
    PolicyIsExact(o, c, s.repo.meta, if k.0 in s.heads then s.heads[k.0].pseudonym else k.0, s.versions, k, now);
  }

  /** So the deletion of a note in a plain vault gives its last content up to the policy of
      attachments: with the deletion as the one newer version, it goes exactly when that policy keeps a
      single version, or its days are up. */
  lemma DeletedNoteIsAnAttachment(o: Oracle, c: Config, s: Store, q: DeleteRequest, h: Head, now: int)
    requires Sound(s) && HistoryFits(s) && Configured(c) && c.historyEnabled && !ByIdOnly(s.repo)
    requires DeleteNext(o, c, s, q).repo.head > s.repo.head && s.repo.meta != MetaVerifying
    requires h.fileId in s.heads && s.heads[h.fileId] == h && h.pseudonym == q.path && !o.isNote(h.fileId)
    requires (h.fileId, h.revision) in s.versions
    ensures var s', k := DeleteNext(o, c, s, q), (h.fileId, h.revision);
            k in s'.versions &&
            (k in ServiceModule.Due(o, c, s', now) <==>
              c.attachmentMax == 1 || !AgeKeeps(s'.versions, k, now, c.attachmentDays))
  {
    var s', k, last := DeleteNext(o, c, s, q), (h.fileId, h.revision), (h.fileId, h.revision + 1);
    DeleteLeaves(o, c, s, q, h);
    DeletionIsOneMore(o, c, s, q, h);
    OneIsNewer(s, h, s'.versions);
    DueUnderOne(o, c, s', now, k, last);
  }

  lemma DueUnderOne(o: Oracle, c: Config, s: Store, now: int, k: VersionKey, last: VersionKey)
    requires Configured(c) && k in s.versions && k.0 !in s.heads && !o.isNote(k.0)
    requires s.repo.meta != MetaVerifying && s.repo.meta != MetaEncrypted
    requires (set j | j in s.versions && j.0 == k.0 && j.1 > k.1) == {last}
    ensures k in ServiceModule.Due(o, c, s, now) <==>
              c.attachmentMax == 1 || !AgeKeeps(s.versions, k, now, c.attachmentDays)
  {
    assert !IsNewest(s.versions, k) by { assert last in {last}; }
    RetentionIsExact(o, c, s, now, k);
  }

  lemma OneIsNewer(s: Store, h: Head, versions: map<VersionKey, Version>)
    requires HistoryFits(s) && h.fileId in s.heads && s.heads[h.fileId] == h
    requires versions.Keys == s.versions.Keys + {(h.fileId, h.revision + 1)}
    ensures (set j | j in versions && j.0 == h.fileId && j.1 > h.revision) == {(h.fileId, h.revision + 1)}
  {
    assert Reached(s, h.fileId) == Some(h.revision);
  }

  lemma DeletionIsOneMore(o: Oracle, c: Config, s: Store, q: DeleteRequest, h: Head)
    requires Sound(s) && HistoryFits(s) && c.historyEnabled && DeleteNext(o, c, s, q).repo.head > s.repo.head
    requires h.fileId in s.heads && s.heads[h.fileId] == h && h.pseudonym == q.path
    ensures var s', last := DeleteNext(o, c, s, q), (h.fileId, h.revision + 1);
            s'.versions.Keys == s.versions.Keys + {last} && s'.repo.meta == s.repo.meta &&
            forall k :: k in s.versions ==> s'.versions[k] == s.versions[k]
  {
    NamedIs(s.heads, q.path);
    assert Named(s.heads, q.path) == Some(h);
    assert DeleteVerdict(o, s, q) == Commit(h);
    assert Reached(s, h.fileId) == Some(h.revision);
    VersionIsAdded(c, s, q, h);
  }

  lemma VersionIsAdded(c: Config, s: Store, q: DeleteRequest, h: Head)
    requires c.historyEnabled && (h.fileId, h.revision + 1) !in s.versions
    ensures var s', last := DeleteApply(c, s, q, Commit(h)), (h.fileId, h.revision + 1);
            s'.versions.Keys == s.versions.Keys + {last} && s'.repo.meta == s.repo.meta &&
            forall k :: k in s.versions ==> s'.versions[k] == s.versions[k]
  {
  }

  // ---------- deletions ----------

  /** Every deletion is kept for the days configured since it was made, or without end. */
  ghost predicate KeptForDays(c: Config, s: Store) {
    forall f :: f in s.tombs ==>
      s.tombs[f].retainUntil == if c.tombstoneDays > 0 then s.tombs[f].deletedAt + c.tombstoneDays * 86400 else 0
  }

  lemma DeleteKeepsDays(o: Oracle, c: Config, s: Store, q: DeleteRequest)
    requires KeptForDays(c, s)
    ensures KeptForDays(c, DeleteNext(o, c, s, q))
  {
  }

  lemma ConversionKeepsDays(c: Config, s: Store, fileId: string, hash: string, device: string)
    requires KeptForDays(c, s)
    ensures KeptForDays(c, MigrateTombstoneNext(s, fileId, hash, device))
  {
  }

  lemma QuietKeepsDays(c: Config, s: Store, s': Store, step: Step)
    requires KeptForDays(c, s) && KeepsTombs(step, s, s') && !step.MigrateTombstone?
    ensures KeptForDays(c, s')
  {
  }

  lemma WriteKeepsDays(c: Config, s: Store, s': Store, e: Effect)
    requires KeptForDays(c, s) && HasEffect(s, s', e) && !e.Erased? && (e.Quiet? ==> s'.tombs == s.tombs)
    ensures KeptForDays(c, s')
  {
  }

  lemma StepKeepsDays(o: Oracle, c: Config, s: Store, step: Step)
    requires Sound(s) && KeptForDays(c, s)
    ensures KeptForDays(c, Next(o, c, s, step))
  {
    if step.DeleteObject? {
      DeleteKeepsDays(o, c, s, step.delete);
    } else if WritesObjects(step) {
      var e := WriteEffect(o, c, s, step);
      WriteKeepsDays(c, s, Next(o, c, s, step), e);
    } else if step.MigrateTombstone? {
      ConversionKeepsDays(c, s, step.fileId, step.canonicalHash, step.device);
    } else {
      QuietKeepsTombs(o, c, s, step);
      QuietKeepsDays(c, s, Next(o, c, s, step), step);
    }
  }

  lemma {:induction false} RunKeepsDays(o: Oracle, c: Config, s: Store, steps: seq<Step>)
    requires Sound(s) && KeptForDays(c, s)
    ensures KeptForDays(c, Run(o, c, s, steps))
  {
    if steps != [] {
      RunKeepsSound(o, c, s, steps[..|steps| - 1]);
      RunKeepsDays(o, c, s, steps[..|steps| - 1]);
      StepKeepsDays(o, c, Run(o, c, s, steps[..|steps| - 1]), steps[|steps| - 1]);
    }
  }

  /** In every run a purge takes exactly the deletions whose days are up and which every device that is
      not revoked has confirmed; without a number of days, or without such a device, none. */
  lemma PurgeTakesExactly(o: Oracle, c: Config, repoEpoch: string, steps: seq<Step>, now: int, f: string)
    requires f in Run(o, c, EmptyStore(repoEpoch), steps).tombs
    requires var t := Run(o, c, EmptyStore(repoEpoch), steps).tombs[f]; t.deletedAt > 0 && t.deletionSequence > 0
    ensures var s := Run(o, c, EmptyStore(repoEpoch), steps);
            f !in Next(o, c, s, Purge(now)).tombs <==>
              c.tombstoneDays > 0 && now >= s.tombs[f].deletedAt + c.tombstoneDays * 86400 &&
              SomeDevice(s) && EveryDeviceConfirmed(s, s.tombs[f].deletionSequence)
  {
    EmptyIsSound(repoEpoch);
    RunKeepsDays(o, c, EmptyStore(repoEpoch), steps);
    PurgeIs(c, Run(o, c, EmptyStore(repoEpoch), steps), now, f);
  }

  /** There is a device that is not revoked. */
  predicate SomeDevice(s: Store) {
    exists d :: d in s.devices && !s.devices[d].revoked
  }

  predicate EveryDeviceConfirmed(s: Store, sequence: int) {
    forall d :: d in s.devices && !s.devices[d].revoked ==> s.devices[d].acked >= sequence
  }

  lemma ActiveIs(s: Store, sequence: int)
    ensures SomeDevice(s) <==> ActiveDevices(s) != {}
    ensures EveryDeviceConfirmed(s, sequence) <==> AllAcked(s, sequence)
  {
    assert forall d :: d in ActiveDevices(s) <==> d in s.devices && !s.devices[d].revoked;
    if ActiveDevices(s) != {} { var d :| d in ActiveDevices(s); }
  }

  lemma PurgeIs(c: Config, s: Store, now: int, f: string)
    requires KeptForDays(c, s) && f in s.tombs && s.tombs[f].deletedAt > 0 && s.tombs[f].deletionSequence > 0
    ensures f !in PurgeNext(c, s, now).tombs <==>
              c.tombstoneDays > 0 && now >= s.tombs[f].deletedAt + c.tombstoneDays * 86400 &&
              SomeDevice(s) && EveryDeviceConfirmed(s, s.tombs[f].deletionSequence)
  {
    ActiveIs(s, s.tombs[f].deletionSequence);
  }

  // ---------- changes ----------

  /** A change, or one after it, is older. */
  predicate OldFrom(log: seq<Change>, i: int, cutoff: int) {
    exists j :: 0 <= i <= j < |log| && log[j].createdAt < cutoff
  }

  /** A change is up by age when it or a later one is older than the days allowed. */
  predicate AgeIsUp(c: Config, log: seq<Change>, now: int, i: nat) {
    c.changesDays > 0 && OldFrom(log, i, now - c.changesDays * 86400)
  }

  /** A change is up by count when enough come after it. */
  predicate CountIsUp(c: Config, log: seq<Change>, i: nat) {
    c.changesMax > 0 && i + c.changesMax < |log|
  }

  lemma OldFromGrows(log: seq<Change>, i: int, cutoff: int)
    requires log != [] && 0 <= i < |log|
    ensures OldFrom(log, i, cutoff) <==>
              log[|log| - 1].createdAt < cutoff || OldFrom(log[..|log| - 1], i, cutoff)
  {
    var init, last := log[..|log| - 1], |log| - 1;
    if log[last].createdAt < cutoff { assert 0 <= i <= last < |log| && log[last].createdAt < cutoff; }
    if j :| 0 <= i <= j < |log| && log[j].createdAt < cutoff && j < last { assert init[j] == log[j]; }
    if j :| 0 <= i <= j < |init| && init[j].createdAt < cutoff { assert init[j] == log[j]; }
  }

  lemma {:induction false} LastBeforeCovers(log: seq<Change>, from: int, cutoff: int)
    requires 0 <= from && forall i :: 0 <= i < |log| ==> log[i].sequence == from + 1 + i
    ensures 0 <= LastBefore(log, cutoff) <= from + |log|
    ensures forall i :: 0 <= i < |log| ==> (from + 1 + i <= LastBefore(log, cutoff) <==> OldFrom(log, i, cutoff))
  {
    if log != [] {
      var init := log[..|log| - 1];
      assert forall i :: 0 <= i < |init| ==> init[i] == log[i];
      LastBeforeCovers(init, from, cutoff);
      forall i | 0 <= i < |log| ensures from + 1 + i <= LastBefore(log, cutoff) <==> OldFrom(log, i, cutoff) {
        OldFromGrows(log, i, cutoff);
      }
    }
  }

  /** Trimming takes exactly the changes that are up by age or by count: without a limit to their
      number, no change goes unless it, or one after it, is older than the days allowed. */
  lemma TrimTakesExactly(o: Oracle, c: Config, s: Store, now: int) returns (n: nat)
    requires LogDense(s)
    ensures n <= |s.log| && Next(o, c, s, TrimLog(now)).log == s.log[n..]
    ensures forall i :: 0 <= i < |s.log| ==> (i < n <==> AgeIsUp(c, s.log, now, i) || CountIsUp(c, s.log, i))
  {
    var upTo := TrimPoint(c, s, now);
    TrimPointInLog(c, s, now);
    n := if upTo == 0 then 0 else upTo - s.repo.minRetained;
    if upTo == 0 { assert s.log[0..] == s.log; } else { AfterDense(s.log, s.repo.minRetained, upTo); }
    forall i | 0 <= i < |s.log| ensures i < n <==> AgeIsUp(c, s.log, now, i) || CountIsUp(c, s.log, i) {
      TrimPointIs(c, s, now, i);
    }
  }

  lemma TrimPointIs(c: Config, s: Store, now: int, i: nat)
    requires LogDense(s) && i < |s.log|
    ensures s.repo.minRetained + 1 + i <= TrimPoint(c, s, now) <==>
              AgeIsUp(c, s.log, now, i) || CountIsUp(c, s.log, i)
  {
    LastBeforeCovers(s.log, s.repo.minRetained, now - c.changesDays * 86400);
  }
}
