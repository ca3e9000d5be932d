/** Whose writes are let in at all. */
module Guards {
  import opened Options
  import opened Tables
  import opened Requests
  import opened Steps
  import opened Effects

  /** The client speaks this protocol, or does not say. */
  predicate Speaks(c: ClientContext) {
    c.protocol == 0 || c.protocol >= 6
  }

  /** The client knows how objects are addressed.  It may keep silent only in the first format. */
  predicate KnowsFormat(r: RepoState, c: ClientContext) {
    c.formatEpoch == r.formatEpoch || (c.formatEpoch == 0 && r.formatEpoch <= 1)
  }

  /** The client is not of the world before a recovery of the repository. */
  predicate SameWorld(r: RepoState, c: ClientContext) {
    c.repoEpoch == "" || c.repoEpoch == r.repoEpoch
  }

  /** The client does not encrypt under another key. */
  predicate SameKey(r: RepoState, c: ClientContext) {
    c.keyEpoch == 0 || r.keyEpoch == 0 || c.keyEpoch == r.keyEpoch
  }

  /** While a migration runs, names that are no ids are left to its owner; while it is verified,
      everything is. */
  predicate MayWriteNow(r: RepoState, device: string, name: string) {
    (r.meta == MetaMigrating ==> r.migration.owner == "" || device == r.migration.owner || IsHex32(name)) &&
    (r.meta == MetaVerifying ==> device == r.migration.owner)
  }

  predicate Welcome(r: RepoState, c: ClientContext, device: string, name: string) {
    Speaks(c) && KnowsFormat(r, c) && SameWorld(r, c) && SameKey(r, c) && MayWriteNow(r, device, name)
  }

  /** The guard lets through exactly the writes that meet all of these, and says of the others what
      is missing first. */
  lemma GuardIsExact(r: RepoState, c: ClientContext, device: string, name: string)
    ensures var g := GuardWrite(r, c, device, name);
            (g.None? <==> Welcome(r, c, device, name)) &&
            (g == Some(UpgradeRequired) <==> !Speaks(c) || (c.formatEpoch == 0 && r.formatEpoch > 1)) &&
            (g == Some(FormatEpochMismatch) <==> Speaks(c) && !KnowsFormat(r, c) && c.formatEpoch != 0) &&
            (g == Some(RepoEpochMismatch) <==> Speaks(c) && KnowsFormat(r, c) && !SameWorld(r, c)) &&
            (g == Some(KeyEpochMismatch) <==>
              Speaks(c) && KnowsFormat(r, c) && SameWorld(r, c) && !SameKey(r, c)) &&
            (g == Some(MigrationLocked) <==>
              Speaks(c) && KnowsFormat(r, c) && SameWorld(r, c) && SameKey(r, c) && !MayWriteNow(r, device, name))
  {
  }

  // ---------- every committed write passed it ----------

  /** What a request says of its client, and the name it gives. */
  datatype Caller = Caller(client: ClientContext, device: string, name: string)

  ghost function CallerOf(step: Step): Option<Caller> {
    match step
    case Upload(q) => Some(Caller(q.client, q.deviceId, q.path))
    case DeleteObject(q) => Some(Caller(q.client, q.deviceId, q.path))
    case Rename(q) => Some(Caller(q.client, q.deviceId, q.from))
    case RestoreObject(q) => Some(Caller(q.client, q.deviceId, q.pseudonym))
    case _ => None
  }

  ghost predicate IsWelcome(r: RepoState, step: Step) {
    CallerOf(step).Some? ==>
      Welcome(r, CallerOf(step).value.client, CallerOf(step).value.device, CallerOf(step).value.name)
  }

  lemma UploadIsWelcome(o: Oracle, s: Store, q: UploadRequest)
    requires UploadVerdict(o, s, q).Commit?
    ensures Welcome(s.repo, q.client, q.deviceId, q.path)
  {
    GuardIsExact(s.repo, q.client, q.deviceId, q.path);
  }

  lemma DeleteIsWelcome(o: Oracle, s: Store, q: DeleteRequest)
    requires DeleteVerdict(o, s, q).Commit?
    ensures Welcome(s.repo, q.client, q.deviceId, q.path)
  {
    GuardIsExact(s.repo, q.client, q.deviceId, q.path);
  }

  lemma RenameIsWelcome(o: Oracle, s: Store, q: RenameRequest)
    requires RenameVerdict(o, s, q).Commit?
    ensures Welcome(s.repo, q.client, q.deviceId, q.from)
  {
    GuardIsExact(s.repo, q.client, q.deviceId, q.from);
  }

  lemma RestoreIsWelcome(o: Oracle, s: Store, q: RestoreRequest)
    requires RestoreVerdict(o, s, q).Commit?
    ensures Welcome(s.repo, q.client, q.deviceId, q.pseudonym)
  {
    GuardIsExact(s.repo, q.client, q.deviceId, q.pseudonym);
  }

  lemma VerdictIsWelcome(o: Oracle, s: Store, step: Step)
    requires VerdictOf(o, s, step).Commit?
    ensures IsWelcome(s.repo, step)
  {
    if step.Upload? { UploadIsWelcome(o, s, step.upload); }
    else if step.Rename? { RenameIsWelcome(o, s, step.rename); }
    else if step.RestoreObject? { RestoreIsWelcome(o, s, step.restore); }
  }

  lemma DeletionIsWelcome(o: Oracle, c: Config, s: Store, q: DeleteRequest)
    requires DeleteNext(o, c, s, q).repo.head > s.repo.head
    ensures Welcome(s.repo, q.client, q.deviceId, q.path)
  {
    if DeleteVerdict(o, s, q).Commit? { DeleteIsWelcome(o, s, q); }
  }

  lemma EffectIsWelcome(o: Oracle, c: Config, s: Store, step: Step, e: Effect)
    requires HasEffect(s, Next(o, c, s, step), e) && !e.Quiet?
    requires e.Wrote? ==> VerdictOf(o, s, step) == Commit(e.h)
    requires e.Erased? ==> step.DeleteObject?
    ensures IsWelcome(s.repo, step)
  {
    if e.Wrote? {
      VerdictIsWelcome(o, s, step);
    } else {
      DeletionIsWelcome(o, c, s, step.delete);
    }
  }

  /** A client's write that is committed meets every one of the conditions. */
  lemma CommittedIsWelcome(o: Oracle, c: Config, s: Store, step: Step)
    requires Sound(s) && Next(o, c, s, step).repo.head > s.repo.head
    ensures WritesObjects(step) && IsWelcome(s.repo, step)
  {
    var e := StepEffect(o, c, s, step);
    assert !e.Quiet?;
    EffectIsWelcome(o, c, s, step, e);
  }
}
