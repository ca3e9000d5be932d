/** What one call on the migrations undoes of another, and who may carry one on. */
module Transitions {
  import opened Options
  import opened Tables
  import opened Requests
  import opened Steps
  import opened Effects
  import opened Privacy

  /** Giving up the encryption of contents takes back its beginning, but for the key epoch: the
      next attempt gets a key of its own. */
  lemma AbortUndoesBeginContent(s: Store)
    requires s.repo.content == Plaintext
    ensures AbortContentNext(BeginContentNext(s)) == s.(repo := s.repo.(keyEpoch := s.repo.keyEpoch + 1))
    ensures BeginContentNext(BeginContentNext(s)) == BeginContentNext(s)
  {
  }

  /** Giving up the metadata migration right after its beginning leaves no trace at all, however
      far the journal had come.  The journal never held an entry of the new migration. */
  lemma AbortUndoesBegin(s: Store, device: string, newId: string, now: int, missed: set<JournalKey>)
    requires s.repo.meta == MetaPlain && s.repo.migration == NO_MIGRATION && BeginVerdict(s.repo, device).None?
    requires forall k :: k in s.journal ==> k.migrationId != newId
    ensures AbortNext(BeginNext(s, device, newId, now, missed)) == s
  {
    var begun := BeginNext(s, device, newId, now, missed);
    assert forall k :: k in Todo(s.(repo := BegunRepo(s.repo, device, newId, now))) ==> k.migrationId == newId;
    assert AbortNext(begun).journal == s.journal;
  }

  /** A beginning that died while it filled the journal is made good by beginning again: the owner
      ends with the journal, and all else but the lease, of a beginning that went through. */
  lemma BeginAgainCatchesUp(s: Store, device: string, newId: string, now: int, missed: set<JournalKey>, newId': string,
          now': int)
    requires BeginVerdict(s.repo, device).None?
    ensures var s1, whole := BeginNext(s, device, newId, now, missed), BeginNext(s, device, newId, now, {});
            BeginVerdict(s1.repo, device).None? &&
            BeginNext(s1, device, newId', now', {}) ==
            whole.(repo := whole.repo.(migration := whole.repo.migration.(leaseExpiresAt := now' + LEASE_SECONDS)))
  {
    var begun := s.(repo := BegunRepo(s.repo, device, newId, now));
    var s1 := BeginNext(s, device, newId, now, missed);
    assert Todo(s1) == Todo(begun) == Todo(s1.(repo := BegunRepo(s1.repo, device, newId', now')));
    CatchesUp(s.journal, Todo(begun), missed);
  }

  lemma CatchesUp(journal: map<JournalKey, Stage>, todo: set<JournalKey>, missed: set<JournalKey>)
    ensures AddPending(AddPending(journal, todo - missed), todo - {}) == AddPending(journal, todo - {})
  {
  }

  /** The same migration goes on. */
  ghost predicate Continues(s: Store, s': Store) {
    s.repo.migration.id != "" && s'.repo.migration.id == s.repo.migration.id
  }

  /** A migration changes hands only through a takeover that names it or through an operator's
      release, and only once its lease has run out.  A second Begin never takes it. */
  lemma OwnerChangesHands(o: Oracle, c: Config, s: Store, step: Step)
    requires Sound(s) && s.repo.meta != MetaPlain && s.repo.migration.owner != "" && Continues(s, Next(o, c, s, step))
    requires Next(o, c, s, step).repo.migration.owner != s.repo.migration.owner
    ensures (step.Takeover? && step.migrationId == s.repo.migration.id && s.repo.migration.leaseExpiresAt <= step.now &&
             Next(o, c, s, step).repo.migration.owner == step.device) ||
            (step.ExpireLease? && s.repo.migration.leaseExpiresAt <= step.now &&
              Next(o, c, s, step).repo.migration.owner == "")
  {
    if WritesObjects(step) { WritesMoveOnlyHead(o, c, s, step); }
    else if Sweeps(step) { SweepKeepsOwner(c, s, step); }
    else if MovesMigration(step) { MoveOfOwner(s, step); }
    else { OtherKeepsMigration(s, step); }
  }

  lemma SweepKeepsOwner(c: Config, s: Store, step: Step)
    requires LogDense(s) && Sweeps(step) && Continues(s, AfterSweep(c, s, step))
    ensures AfterSweep(c, s, step).repo.migration.owner == s.repo.migration.owner
  {
    if Drops(step) {
      SweepDrops(c, s, step);
    } else {
      match step
      case MigrateTombstone(fileId, canonicalHash, device) => ConversionOf(s, fileId, canonicalHash, device);
      case Complete(id, device, shares, sentinels, erasure) =>
      case TrimLog(now) => TrimmedLog(c, s, now);
    }
  }

  lemma OtherKeepsMigration(s: Store, step: Step)
    requires MovesOther(step)
    ensures AfterOther(s, step).repo.migration == s.repo.migration
  {
  }

  lemma MoveOfOwner(s: Store, step: Step)
    requires MovesMigration(step) && s.repo.meta != MetaPlain && s.repo.migration.owner != ""
    requires Continues(s, AfterMigrationMove(s, step)) &&
             AfterMigrationMove(s, step).repo.migration.owner != s.repo.migration.owner
    ensures var s' := AfterMigrationMove(s, step);
            (step.Takeover? && step.migrationId == s.repo.migration.id && s.repo.migration.leaseExpiresAt <= step.now &&
              s'.repo.migration.owner == step.device) ||
            (step.ExpireLease? && s.repo.migration.leaseExpiresAt <= step.now && s'.repo.migration.owner == "")
  {
  }
}
