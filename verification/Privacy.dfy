/** What the server can read of names once metadata encryption is complete. */
module Privacy {
  import opened Envelope
  import opened Options
  import opened Tables
  import opened Requests
  import opened Steps
  import opened Effects
  import opened Runs
  import opened Guards

  ghost predicate HeadsById(s: Store) {
    forall f :: f in s.heads ==> s.heads[f].pseudonym == f && s.heads[f].encryptedMetadata != ""
  }

  ghost predicate TombstonesById(s: Store) {
    forall f :: f in s.tombs ==> s.tombs[f].lastPseudonym == f
  }

  ghost predicate LogById(s: Store) {
    forall i :: 0 <= i < |s.log| ==> s.log[i].pseudonym == s.log[i].fileId
  }

  /** Nothing the store holds is addressed by anything but its id, and every live object
      carries its name encrypted. */
  ghost predicate Private(s: Store) {
    s.repo.meta == MetaEncrypted && 2 <= s.repo.formatEpoch && HeadsById(s) && TombstonesById(s) && LogById(s)
  }

  /** Completing the migration from any sound state, with any journal, ends in a private state:
      the validator looks at the tables themselves. */
  lemma CompleteIsPrivate(o: Oracle, c: Config, s: Store, id: string, device: string, shares: nat, sentinels: nat,
          erasure: Erasure)
    requires Sound(s) && 1 <= s.repo.formatEpoch && s.repo.meta != MetaEncrypted
    requires CompleteVerdict(s, id, device, shares, sentinels, erasure).None?
    ensures var s' := CompleteNext(s, id, device, shares, sentinels, erasure);
            Private(s') && s'.log == [] && s.repo.formatEpoch < s'.repo.formatEpoch
  {
    assert forall f :: f in s.heads ==> HeadReady(s, f);
  }

  /** And the migration completes in no other state: whatever is still named in plain, or has
      no encrypted metadata, keeps the repository in verification. */
  lemma UnreadyNeverCompletes(s: Store, id: string, device: string, shares: nat, sentinels: nat, erasure: Erasure)
    requires s.repo.meta == MetaVerifying && LifeCycle(s)
    requires !HeadsById(s) || !TombstonesById(s)
    ensures CompleteVerdict(s, id, device, shares, sentinels, erasure).Some?
    ensures CompleteNext(s, id, device, shares, sentinels, erasure) == s
  {
    assert forall f :: f in s.heads && HeadReady(s, f) ==>
           s.heads[f].pseudonym == f && s.heads[f].encryptedMetadata != "";
  }

  // ---------- encrypted is absorbing ----------

  /** A head named by its id that carries its name encrypted. */
  predicate ById(h: Head) {
    h.pseudonym == h.fileId && h.encryptedMetadata != ""
  }

  lemma UploadIsById(o: Oracle, s: Store, q: UploadRequest)
    requires Sound(s) && Private(s) && UploadVerdict(o, s, q).Commit?
    ensures ById(UploadVerdict(o, s, q).head)
  {
    NamedIs(s.heads, q.path);
  }

  lemma RenameIsById(o: Oracle, s: Store, q: RenameRequest)
    requires Sound(s) && Private(s) && RenameVerdict(o, s, q).Commit?
    ensures ById(RenameVerdict(o, s, q).head)
  {
    NamedIs(s.heads, q.from);
  }

  lemma CommitIsById(o: Oracle, s: Store, step: Step)
    requires Sound(s) && Private(s) && VerdictOf(o, s, step).Commit?
    ensures ById(VerdictOf(o, s, step).head)
  {
    match step
    case Upload(q) => UploadIsById(o, s, q);
    case Rename(q) => RenameIsById(o, s, q);
    case RestoreObject(q) =>
    case _ =>
  }

  lemma WriteStaysPrivate(s: Store, s': Store, e: Effect)
    requires HeadsById(s) && TombstonesById(s) && LogById(s)
    requires e.Wrote? && IsWrite(s, s', e.kind, e.h, e.c) && ById(e.h)
    ensures HeadsById(s') && TombstonesById(s') && LogById(s')
  {
  }

  lemma DeleteStaysPrivate(o: Oracle, c: Config, s: Store, q: DeleteRequest)
    requires Sound(s) && Private(s)
    ensures var s' := DeleteNext(o, c, s, q);
            HeadsById(s') && TombstonesById(s') && LogById(s')
  {
    NamedIs(s.heads, q.path);
  }

  lemma QuietStaysPrivate(s: Store, s': Store)
    requires Sound(s) && Private(s) && IsQuiet(s, s')
    requires forall f :: f in s'.tombs ==> s'.tombs[f].lastPseudonym == s.tombs[f].lastPseudonym
    ensures HeadsById(s') && TombstonesById(s') && LogById(s')
  {
    AfterDense(s.log, s.repo.minRetained, s'.repo.minRetained);
  }

  ghost predicate OnlyHeadMoves(s: Store, s': Store) {
    s'.repo == s.repo.(head := s'.repo.head)
  }

  lemma UploadMovesOnlyHead(o: Oracle, c: Config, s: Store, q: UploadRequest, verdict: Verdict)
    ensures OnlyHeadMoves(s, UploadApply(o, c, s, q, verdict))
  {
    if verdict.Commit? {
      var blobs := StoreBlob(o, c.strictVerify, s.blobs, verdict.head.blobId, q.body, q.fault, q.quarantineFull).1;
      UploadPublishes(o, c, s.(blobs := blobs), verdict.head, q);
    }
  }

  lemma PublishMovesOnlyHead(s: Store, h: Head, action: Action, op: string, now: int)
    ensures OnlyHeadMoves(s, Publish(s, h, action, op, now))
  {
  }

  lemma RestoreMovesOnlyHead(c: Config, s: Store, q: RestoreRequest, verdict: Verdict)
    ensures OnlyHeadMoves(s, RestoreApply(c, s, q, verdict))
  {
    if verdict.Commit? && UniqueAllows(s.heads, verdict.head) {
      var h := verdict.head;
      var s1 := PutLedger(s, h.fileId, true, q.now, 0);
      var s2 := s1.(tombs := s1.tombs - {h.fileId});
      PublishMovesOnlyHead(s2, h, Restore, q.client.operationId, q.now);
    }
  }

  lemma RenameMovesOnlyHead(s: Store, q: RenameRequest, verdict: Verdict)
    ensures OnlyHeadMoves(s, RenameApply(s, q, verdict))
  {
  }

  lemma MigrateMovesOnlyHead(s: Store, cur: Option<Head>, now: int, verdict: Verdict)
    ensures OnlyHeadMoves(s, MigrateObjectApply(s, cur, now, verdict))
  {
  }

  /** Of the repository state a write moves the head sequence and nothing else. */
  lemma WritesMoveOnlyHead(o: Oracle, c: Config, s: Store, step: Step)
    requires WritesObjects(step)
    ensures OnlyHeadMoves(s, AfterWrite(o, c, s, step))
  {
    match step
    case Upload(q) => UploadMovesOnlyHead(o, c, s, q, UploadVerdict(o, s, q));
    case DeleteObject(q) =>
    case Rename(q) => RenameMovesOnlyHead(s, q, RenameVerdict(o, s, q));
    case RestoreObject(q) => RestoreMovesOnlyHead(c, s, q, RestoreVerdict(o, s, q));
    case MigrateObject(name, metaEnc, canonicalHash, device, now) =>
      MigrateMovesOnlyHead(s, Named(s.heads, name), now,
        MigrateObjectVerdict(s, name, metaEnc, canonicalHash, device, now));
  }

  lemma RepoStaysEncrypted(o: Oracle, c: Config, s: Store, step: Step)
    requires Sound(s) && s.repo.meta == MetaEncrypted
    ensures Next(o, c, s, step).repo.meta == MetaEncrypted && Next(o, c, s, step).repo.formatEpoch == s.repo.formatEpoch
  {
    if WritesObjects(step) { WritesMoveOnlyHead(o, c, s, step); }
    else if Sweeps(step) { SweepsStayEncrypted(c, s, step); }
    else if MovesMigration(step) { MigrationSteps(s, step); }
    else { OthersKeepMeta(s, step); }
  }

  lemma SweepsStayEncrypted(c: Config, s: Store, step: Step)
    requires LogDense(s) && s.repo.meta == MetaEncrypted && Sweeps(step)
    ensures AfterSweep(c, s, step).repo.meta == MetaEncrypted &&
            AfterSweep(c, s, step).repo.formatEpoch == s.repo.formatEpoch
  {
    if Drops(step) {
      SweepDrops(c, s, step);
    } else {
      match step
      case TrimLog(now) => TrimmedLog(c, s, now);
      case MigrateTombstone(fileId, canonicalHash, device) => ConversionOf(s, fileId, canonicalHash, device);
      case Complete(_, _, _, _, _) =>
    }
  }

  lemma NothingLeftToConvert(s: Store, fileId: string, canonicalHash: string, device: string)
    requires s.repo.meta == MetaEncrypted
    ensures MigrateTombstoneNext(s, fileId, canonicalHash, device) == s
  {
  }

  lemma QuietStepStaysPrivate(o: Oracle, c: Config, s: Store, step: Step)
    requires Sound(s) && Private(s) && IsQuiet(s, Next(o, c, s, step)) && KeepsTombs(step, s, Next(o, c, s, step))
    ensures var s' := Next(o, c, s, step); HeadsById(s') && TombstonesById(s') && LogById(s')
  {
    if step.MigrateTombstone? { NothingLeftToConvert(s, step.fileId, step.canonicalHash, step.device); }
    QuietStaysPrivate(s, Next(o, c, s, step));
  }

  lemma StepStaysPrivate(o: Oracle, c: Config, s: Store, step: Step)
    requires Sound(s) && Private(s)
    ensures Private(Next(o, c, s, step)) && Next(o, c, s, step).repo.formatEpoch == s.repo.formatEpoch
  {
    RepoStaysEncrypted(o, c, s, step);
    var e := StepEffect(o, c, s, step);
    if e.Wrote? {
      CommitIsById(o, s, step);
      WriteStaysPrivate(s, Next(o, c, s, step), e);
    } else if e.Erased? {
      DeleteStaysPrivate(o, c, s, step.delete);
    } else {
      QuietStepStaysPrivate(o, c, s, step);
    }
  }

  /** Encrypted is absorbing and private: in every run from a private state. */
  lemma {:induction false} EncryptedForever(o: Oracle, c: Config, s: Store, steps: seq<Step>)
    requires Sound(s) && Private(s)
    ensures Private(Run(o, c, s, steps)) && Run(o, c, s, steps).repo.formatEpoch == s.repo.formatEpoch
  {
    if steps != [] {
      var init := steps[..|steps| - 1];
      RunKeepsSound(o, c, s, init);
      EncryptedForever(o, c, s, init);
      StepStaysPrivate(o, c, Run(o, c, s, init), steps[|steps| - 1]);
    }
  }

  lemma NoMoreMigration(o: Oracle, c: Config, s: Store, step: Step)
    requires s.repo.meta == MetaEncrypted && step.MigrateObject?
    ensures Next(o, c, s, step).repo.head == s.repo.head
  {
  }

  /** Only a client that knows the new format epoch can change an object afterwards. */
  lemma WritersKnowTheEpoch(o: Oracle, c: Config, s: Store, step: Step)
    requires Sound(s) && Private(s) && Next(o, c, s, step).repo.head > s.repo.head
    ensures CallerOf(step).Some? && CallerOf(step).value.client.formatEpoch == s.repo.formatEpoch
  {
    CommittedIsWelcome(o, c, s, step);
    if step.MigrateObject? { NoMoreMigration(o, c, s, step); }
  }

  // ---------- the world after a recovery ----------

  lemma OthersKeepWorld(s: Store, step: Step)
    requires MovesOther(step) && !step.RotateRepo?
    ensures AfterOther(s, step).repo.repoEpoch == s.repo.repoEpoch
  {
  }

  lemma SweepKeepsWorld(c: Config, s: Store, step: Step)
    requires Sweeps(step)
    ensures AfterSweep(c, s, step).repo.repoEpoch == s.repo.repoEpoch
  {
  }

  lemma StepKeepsWorld(o: Oracle, c: Config, s: Store, step: Step)
    requires !step.RotateRepo?
    ensures Next(o, c, s, step).repo.repoEpoch == s.repo.repoEpoch
  {
    if WritesObjects(step) { WritesMoveOnlyHead(o, c, s, step); }
    else if Sweeps(step) { SweepKeepsWorld(c, s, step); }
    else if MovesMigration(step) { MigrationSteps(s, step); }
    else { OthersKeepWorld(s, step); }
  }

  predicate NoRotation(steps: seq<Step>) {
    forall i :: 0 <= i < |steps| ==> !steps[i].RotateRepo?
  }

  lemma {:induction false} RunKeepsWorld(o: Oracle, c: Config, s: Store, steps: seq<Step>)
    requires NoRotation(steps)
    ensures Run(o, c, s, steps).repo.repoEpoch == s.repo.repoEpoch
  {
    if steps != [] {
      var init := steps[..|steps| - 1];
      RunKeepsWorld(o, c, s, init);
      StepKeepsWorld(o, c, Run(o, c, s, init), steps[|steps| - 1]);
    }
  }

  /** Once the repository has begun a new world, as after a recovery from a backup, no client of
      another one changes an object, in any run, until the next. */
  lemma NoWriterOfAnotherWorld(o: Oracle, c: Config, s: Store, world: string, steps: seq<Step>, step: Step)
    requires Sound(s) && NoRotation(steps)
    requires var s2 := Run(o, c, Next(o, c, s, RotateRepo(world)), steps);
             Next(o, c, s2, step).repo.head > s2.repo.head
    ensures CallerOf(step).Some? ==> CallerOf(step).value.client.repoEpoch in {"", world}
  {
    var s1 := Next(o, c, s, RotateRepo(world));
    StepKeepsSound(o, c, s, RotateRepo(world));
    RunKeepsSound(o, c, s1, steps);
    RunKeepsWorld(o, c, s1, steps);
    NewWorld(o, c, s, world);
    CommittedIsWelcome(o, c, Run(o, c, s1, steps), step);
  }

  lemma NewWorld(o: Oracle, c: Config, s: Store, world: string)
    ensures Next(o, c, s, RotateRepo(world)).repo.repoEpoch == world
  {
  }

  // ---------- ratchets ----------

  /** What the repository has asked of clients it goes on asking: epochs and the envelope floor
      never fall, and content once encrypted stays so. */
  ghost predicate Ratchets(r: RepoState, r': RepoState) {
    r.formatEpoch <= r'.formatEpoch && r.minEnvelope <= r'.minEnvelope && r.keyEpoch <= r'.keyEpoch &&
    (r.content == Encrypted ==> r'.content == Encrypted) && (r.meta == MetaEncrypted ==> r'.meta == MetaEncrypted)
  }

  lemma StepRatchets(o: Oracle, c: Config, s: Store, step: Step)
    requires Sound(s)
    ensures Ratchets(s.repo, Next(o, c, s, step).repo)
  {
    if WritesObjects(step) { WritesMoveOnlyHead(o, c, s, step); }
    else if Sweeps(step) { SweepRatchets(c, s, step); }
    else if MovesMigration(step) {
      MigrationSteps(s, step);
    } else {
      OthersRatchet(s, step);
    }
  }

  lemma AbortedContentRatchets(r: RepoState)
    ensures Ratchets(r, AbortedContent(r))
  {
  }

  lemma UpgradeRatchets(s: Store)
    ensures Ratchets(s.repo, UpgradeEnvelopeNext(s).repo)
  {
  }

  lemma OthersRatchet(s: Store, step: Step)
    requires MovesOther(step)
    ensures Ratchets(s.repo, AfterOther(s, step).repo)
  {
    match step
    case BeginContent =>
    case AbortContent => AbortedContentRatchets(s.repo);
    case CompleteContent =>
    case UpgradeEnvelope => UpgradeRatchets(s);
    case RotateKey =>
    case RotateRepo(_) =>
    case AddDevice(_) =>
    case RevokeDevice(_) =>
    case Ack(_, _) =>
  }

  lemma SweepRatchets(c: Config, s: Store, step: Step)
    requires LogDense(s) && Sweeps(step)
    ensures Ratchets(s.repo, AfterSweep(c, s, step).repo)
  {
    if Drops(step) {
      SweepDrops(c, s, step);
    } else {
      match step
      case MigrateTombstone(fileId, canonicalHash, device) => ConversionOf(s, fileId, canonicalHash, device);
      case Complete(id, device, shares, sentinels, erasure) =>
      case TrimLog(now) => TrimmedLog(c, s, now);
    }
  }

  /** The migration record, and the state of metadata when it is not encrypted yet. */
  ghost predicate OnlyMigrationMoves(r: RepoState, r': RepoState) {
    r' == r.(meta := r'.meta, migration := r'.migration) &&
      (r'.meta == r.meta || (r.meta != MetaEncrypted && r'.meta != MetaEncrypted))
  }

  lemma BeginMovesMigration(s: Store, device: string, newId: string, now: int, missed: set<JournalKey>)
    ensures OnlyMigrationMoves(s.repo, BeginNext(s, device, newId, now, missed).repo)
  {
  }

  lemma TakeoverMovesMigration(r: RepoState, id: string, device: string, now: int)
    ensures OnlyMigrationMoves(r, TakenOver(r, id, device, now))
  {
  }

  lemma VerifyMovesMigration(s: Store, device: string)
    ensures OnlyMigrationMoves(s.repo, VerifyNext(s, device).repo)
  {
  }

  lemma MigrationSteps(s: Store, step: Step)
    requires MovesMigration(step)
    ensures OnlyMigrationMoves(s.repo, AfterMigrationMove(s, step).repo)
  {
    match step
    case Begin(device, newId, now, missed) => BeginMovesMigration(s, device, newId, now, missed);
    case Takeover(id, device, now) => TakeoverMovesMigration(s.repo, id, device, now);
    case RenewLease(device, now) =>
    case ExpireLease(now) =>
    case Verify(device) => VerifyMovesMigration(s, device);
    case Abort =>
  }

  lemma {:induction false} RunRatchets(o: Oracle, c: Config, s: Store, steps: seq<Step>)
    requires Sound(s)
    ensures Ratchets(s.repo, Run(o, c, s, steps).repo)
  {
    if steps != [] {
      var init := steps[..|steps| - 1];
      RunKeepsSound(o, c, s, init);
      RunRatchets(o, c, s, init);
      StepRatchets(o, c, Run(o, c, s, init), steps[|steps| - 1]);
    }
  }

  // ---------- from an empty vault ----------

  lemma SweepsKeepMeta(c: Config, s: Store, step: Step)
    requires LogDense(s) && Sweeps(step) && !step.Complete?
    ensures AfterSweep(c, s, step).repo.meta == s.repo.meta
  {
    if Drops(step) {
      SweepDrops(c, s, step);
    } else {
      match step
      case MigrateTombstone(fileId, canonicalHash, device) => ConversionOf(s, fileId, canonicalHash, device);
      case TrimLog(now) => TrimmedLog(c, s, now);
    }
  }

  lemma OthersKeepMeta(s: Store, step: Step)
    requires MovesOther(step)
    ensures AfterOther(s, step).repo.meta == s.repo.meta && AfterOther(s, step).repo.formatEpoch == s.repo.formatEpoch
  {
  }

  lemma NothingElseEncrypts(o: Oracle, c: Config, s: Store, step: Step)
    requires Sound(s) && s.repo.meta != MetaEncrypted && !step.Complete?
    ensures Next(o, c, s, step).repo.meta != MetaEncrypted
  {
    if WritesObjects(step) { WritesMoveOnlyHead(o, c, s, step); }
    else if Sweeps(step) { SweepsKeepMeta(c, s, step); }
    else if MovesMigration(step) { MigrationSteps(s, step); }
    else { OthersKeepMeta(s, step); }
  }

  /** There is one way to become encrypted. */
  lemma OnlyCompletionEncrypts(o: Oracle, c: Config, s: Store, step: Step)
    requires Sound(s) && s.repo.meta != MetaEncrypted && Next(o, c, s, step).repo.meta == MetaEncrypted
    ensures step.Complete? && CompleteVerdict(s, step.migrationId, step.device, step.namedShares, step.sentinels,
              step.erasure).None?
  {
    if !step.Complete? { NothingElseEncrypts(o, c, s, step); }
  }

  /** In every run from an empty vault: wherever the repository says it is encrypted, it is
      private. */
  lemma {:induction false} EncryptedMeansPrivate(o: Oracle, c: Config, repoEpoch: string, steps: seq<Step>)
    ensures var s := Run(o, c, EmptyStore(repoEpoch), steps); s.repo.meta == MetaEncrypted ==> Private(s)
  {
    if steps != [] {
      var init, step := steps[..|steps| - 1], steps[|steps| - 1];
      var s := Run(o, c, EmptyStore(repoEpoch), init);
      EmptyIsSound(repoEpoch);
      RunKeepsSound(o, c, EmptyStore(repoEpoch), init);
      RunRatchets(o, c, EmptyStore(repoEpoch), init);
      EncryptedMeansPrivate(o, c, repoEpoch, init);
      if s.repo.meta == MetaEncrypted {
        StepStaysPrivate(o, c, s, step);
      } else if Next(o, c, s, step).repo.meta == MetaEncrypted {
        OnlyCompletionEncrypts(o, c, s, step);
        CompleteIsPrivate(o, c, s, step.migrationId, step.device, step.namedShares, step.sentinels, step.erasure);
      }
    }
  }

  /** So in every run, a committed upload is at or above every floor the repository ever had. */
  lemma UploadsMeetEveryFloor(o: Oracle, c: Config, s: Store, steps: seq<Step>, q: UploadRequest)
    requires Sound(s) && UploadVerdict(o, Run(o, c, s, steps), q).Commit?
    ensures UploadVerdict(o, Run(o, c, s, steps), q).head.envelope >= s.repo.minEnvelope
    ensures s.repo.content == Encrypted ==> UploadVerdict(o, Run(o, c, s, steps), q).head.envelope > 0
  {
    RunRatchets(o, c, s, steps);
  }

  /** A restore does not look at the floor: it goes below it exactly when the content it goes
      back to does, or is not stored. */
  lemma RestoreMayUndercut(o: Oracle, s: Store, q: RestoreRequest)
    requires RestoreVerdict(o, s, q).Commit?
    ensures var blob := BlobOf(o, s.tombs[q.fileId].priorContentHash);
            RestoreVerdict(o, s, q).head.envelope < s.repo.minEnvelope <==>
              0 < s.repo.minEnvelope && (blob == "" || blob !in s.blobs ||
                EnvelopeVersion(s.blobs[blob]) < s.repo.minEnvelope)
  {
  }

  // ---------- canonical keys ----------

  /** The key of a name is one a client supplied, or the server's own normal form of the name
      the object goes by. */
  predicate KeyFits(o: Oracle, given: set<string>, name: string, key: string) {
    key in given || key == o.canonical(name)
  }

  ghost predicate KeysFit(o: Oracle, given: set<string>, s: Store) {
    (forall f :: f in s.heads ==> KeyFits(o, given, s.heads[f].pseudonym, s.heads[f].canonicalKey)) &&
    (forall f :: f in s.tombs ==> KeyFits(o, given, s.tombs[f].lastPseudonym, s.tombs[f].canonicalKey))
  }

  /** The key a request supplies: its keyed hash, marked as one. */
  function KeyGiven(step: Step): set<string> {
    match step
    case Upload(q) => {"h:" + q.canonicalHash}
    case Rename(q) => {"h:" + q.canonicalHash}
    case RestoreObject(q) => {"h:" + q.canonicalHash}
    case MigrateObject(_, _, canonicalHash, _, _) => {"h:" + canonicalHash}
    case MigrateTombstone(_, canonicalHash, _) => {"h:" + canonicalHash}
    case _ => {}
  }

  function KeysGiven(steps: seq<Step>): set<string> {
    set i, key | 0 <= i < |steps| && key in KeyGiven(steps[i]) :: key
  }

  lemma StepKeepsKeys(o: Oracle, c: Config, given: set<string>, s: Store, step: Step)
    requires Sound(s) && KeysFit(o, given, s) && KeyGiven(step) <= given
    ensures KeysFit(o, given, Next(o, c, s, step))
  {
    if step.DeleteObject? {
      DeleteKeepsKeys(o, c, given, s, step.delete);
    } else if WritesObjects(step) {
      WriteStepKeepsKeys(o, c, given, s, step);
    } else if step.MigrateTombstone? {
      ConversionKeepsKeys(o, given, s, step.fileId, step.canonicalHash, step.device);
    } else {
      QuietEffect(o, c, s, step);
      QuietKeepsTombs(o, c, s, step);
    }
  }

  lemma WriteStepKeepsKeys(o: Oracle, c: Config, given: set<string>, s: Store, step: Step)
    requires Sound(s) && KeysFit(o, given, s) && KeyGiven(step) <= given && WritesObjects(step) && !step.DeleteObject?
    ensures KeysFit(o, given, AfterWrite(o, c, s, step))
  {
    var e := WriteEffect(o, c, s, step);
    if e.Wrote? {
      CommitKeepsKey(o, given, s, step);
      WriteKeepsKeys(o, given, s, AfterWrite(o, c, s, step), e);
    } else {
    }
  }

  lemma WriteKeepsKeys(o: Oracle, given: set<string>, s: Store, s': Store, e: Effect)
    requires KeysFit(o, given, s) && e.Wrote? && s'.heads == s.heads[e.h.fileId := e.h] &&
             s'.tombs == s.tombs - {e.h.fileId}
    requires KeyFits(o, given, e.h.pseudonym, e.h.canonicalKey)
    ensures KeysFit(o, given, s')
  {
  }

  lemma DeleteKeepsKeys(o: Oracle, c: Config, given: set<string>, s: Store, q: DeleteRequest)
    requires NamesUnique(s.heads) && KeysFit(o, given, s)
    ensures KeysFit(o, given, DeleteNext(o, c, s, q))
  {
    NamedIs(s.heads, q.path);
  }

  lemma ConversionKeepsKeys(o: Oracle, given: set<string>, s: Store, fileId: string, canonicalHash: string,
          device: string)
    requires KeysFit(o, given, s) && "h:" + canonicalHash in given
    ensures KeysFit(o, given, MigrateTombstoneNext(s, fileId, canonicalHash, device))
  {
  }

  lemma UploadKeepsKey(o: Oracle, given: set<string>, s: Store, q: UploadRequest)
    requires NamesUnique(s.heads) && KeysFit(o, given, s) && "h:" + q.canonicalHash in given &&
             UploadVerdict(o, s, q).Commit?
    ensures KeyFits(o, given, UploadVerdict(o, s, q).head.pseudonym, UploadVerdict(o, s, q).head.canonicalKey)
  {
    NamedIs(s.heads, q.path);
  }

  lemma CommitKeepsKey(o: Oracle, given: set<string>, s: Store, step: Step)
    requires NamesUnique(s.heads) && KeysFit(o, given, s) && KeyGiven(step) <= given && VerdictOf(o, s, step).Commit?
    ensures KeyFits(o, given, VerdictOf(o, s, step).head.pseudonym, VerdictOf(o, s, step).head.canonicalKey)
  {
    if step.Upload? { UploadKeepsKey(o, given, s, step.upload); }
  }

  /** In every run the key of every object and deletion is one that a client supplied in this
      run, or had before, or the normal form of the name it goes by. */
  lemma {:induction false} RunKeepsKeys(o: Oracle, c: Config, given: set<string>, s: Store, steps: seq<Step>)
    requires Sound(s) && KeysFit(o, given, s)
    ensures KeysFit(o, given + KeysGiven(steps), Run(o, c, s, steps))
  {
    if steps == [] {
    } else {
      var init, step := steps[..|steps| - 1], steps[|steps| - 1];
      var s0 := Run(o, c, s, init);
      RunKeepsSound(o, c, s, init);
      RunKeepsKeys(o, c, given, s, init);
      assert KeysGiven(init) <= KeysGiven(steps);
      StepKeepsKeys(o, c, given + KeysGiven(steps), s0, step);
    }
  }

  /** So once metadata is encrypted the keys name nothing either: in every run from an empty
      vault each is a keyed hash a client supplied, or the normal form of the bare file id. */
  lemma EncryptedKeysNameNothing(o: Oracle, c: Config, repoEpoch: string, steps: seq<Step>)
    requires Run(o, c, EmptyStore(repoEpoch), steps).repo.meta == MetaEncrypted
    ensures var s := Run(o, c, EmptyStore(repoEpoch), steps);
            (forall f :: f in s.heads ==> KeyFits(o, KeysGiven(steps), f, s.heads[f].canonicalKey)) &&
            forall f :: f in s.tombs ==> KeyFits(o, KeysGiven(steps), f, s.tombs[f].canonicalKey)
  {
    EmptyIsSound(repoEpoch);
    EncryptedMeansPrivate(o, c, repoEpoch, steps);
    RunKeepsKeys(o, c, {}, EmptyStore(repoEpoch), steps);
    assert {} + KeysGiven(steps) == KeysGiven(steps);
  }
}
