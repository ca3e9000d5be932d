/** The metadata migration can be brought to its end, and what the log's past has to do with it. */
module Completion {
  import opened Envelope
  import opened Options
  import opened Tables
  import opened Requests
  import opened Steps
  import opened Effects
  import opened Runs
  import opened Outcomes
  import opened Privacy

  // ---------- which changes are stale ----------

  /** The migration may be begun. */
  predicate MayBegin(r: RepoState) {
    r.content == Encrypted && r.minEnvelope >= 3 && r.meta == MetaPlain
  }

  /** Since some sequence, only ids were published. */
  ghost predicate OnlyIdsSince(log: seq<Change>, sequence: int) {
    forall i :: 0 <= i < |log| && log[i].sequence > sequence ==> log[i].pseudonym == log[i].fileId
  }

  predicate GoesOn(steps: seq<Step>) {
    forall i :: 0 <= i < |steps| ==> !steps[i].Abort? && !steps[i].Complete?
  }

  /** A migration is under way, and was begun at that sequence. */
  predicate BegunAt(r: RepoState, sequence: int) {
    (r.meta == MetaMigrating || r.meta == MetaVerifying) && r.migration.cutoff == sequence
  }

  lemma BeginningIsAt(s: Store, device: string, newId: string, now: int, missed: set<JournalKey>)
    requires MayBegin(s.repo)
    ensures BegunAt(BeginNext(s, device, newId, now, missed).repo, s.repo.head)
  {
  }

  lemma MoveKeepsBeginning(s: Store, step: Step, sequence: int)
    requires MovesMigration(step) && !step.Abort? && BegunAt(s.repo, sequence)
    ensures BegunAt(AfterMigrationMove(s, step).repo, sequence)
  {
  }

  lemma SweepKeepsBeginning(c: Config, s: Store, step: Step, sequence: int)
    requires Sweeps(step) && !step.Complete? && BegunAt(s.repo, sequence)
    ensures BegunAt(AfterSweep(c, s, step).repo, sequence)
  {
  }

  lemma OtherKeepsBeginning(s: Store, step: Step, sequence: int)
    requires MovesOther(step) && BegunAt(s.repo, sequence)
    ensures BegunAt(AfterOther(s, step).repo, sequence)
  {
  }

  lemma StepKeepsBeginning(o: Oracle, c: Config, s: Store, step: Step, sequence: int)
    requires !step.Abort? && !step.Complete? && BegunAt(s.repo, sequence)
    ensures BegunAt(Next(o, c, s, step).repo, sequence)
  {
    if WritesObjects(step) { WritesMoveOnlyHead(o, c, s, step); }
    else if Sweeps(step) { SweepKeepsBeginning(c, s, step, sequence); }
    else if MovesMigration(step) { MoveKeepsBeginning(s, step, sequence); }
    else { OtherKeepsBeginning(s, step, sequence); }
  }

  lemma {:induction false} RunKeepsBeginning(o: Oracle, c: Config, s: Store, steps: seq<Step>, sequence: int)
    requires GoesOn(steps) && BegunAt(s.repo, sequence)
    ensures BegunAt(Run(o, c, s, steps).repo, sequence)
  {
    if steps != [] {
      var init := steps[..|steps| - 1];
      RunKeepsBeginning(o, c, s, init, sequence);
      StepKeepsBeginning(o, c, Run(o, c, s, init), steps[|steps| - 1], sequence);
    }
  }

  /** While a migration goes on, the validator calls stale exactly the changes published since it
      began under a name that is not the object's id.  Right after its beginning there is none. */
  lemma StaleSinceBeginning(o: Oracle, c: Config, s: Store, device: string, newId: string, now: int,
          missed: set<JournalKey>, steps: seq<Step>)
    requires Sound(s) && MayBegin(s.repo) && GoesOn(steps)
    ensures var s1 := Next(o, c, s, Begin(device, newId, now, missed));
            NoStaleChange(s1) &&
            (NoStaleChange(Run(o, c, s1, steps)) <==> OnlyIdsSince(Run(o, c, s1, steps).log, s.repo.head))
  {
    BeginningIsAt(s, device, newId, now, missed);
    RunKeepsBeginning(o, c, Next(o, c, s, Begin(device, newId, now, missed)), steps, s.repo.head);
  }

  // ---------- bringing it to its end ----------

  /** What the client knows of names: the metadata of an object, and its keyed hash. */
  datatype Names = Names(metadata: string -> string, hash: string -> string)

  /** Nothing but names keeps the object from completion. */
  predicate ReadyButForNames(s: Store, f: string)
    requires f in s.heads
  {
    s.heads[f].envelope >= 3 && (s.repo.keyEpoch > 0 ==> s.heads[f].keyEpoch == s.repo.keyEpoch) &&
    IsHex32(f) && GenerationMonotonic(s, f)
  }

  ghost predicate AllReadyButForNames(s: Store) {
    (forall f :: f in s.heads ==> ReadyButForNames(s, f)) && (forall f :: f in s.tombs ==> IsHex32(f)) &&
    HistoryKnown(s)
  }

  /** The names to be given are well formed and differ, and nobody else has any of them. */
  ghost predicate NamesAreFree(s: Store, names: Names) {
    (forall f :: f in s.heads ==> names.metadata(f) != "" && IsHex64(names.hash(f))) &&
    (forall f :: f in s.tombs ==> IsHex64(names.hash(f))) &&
    forall f, g :: f in s.heads && g in s.heads && f != g ==> LeavesFree(s.heads[g], g, names, f)
  }

  /** The object does not use the names to be given to another one, and is not to get them either. */
  predicate LeavesFree(h: Head, g: string, names: Names, f: string) {
    h.pseudonym != f && names.hash(g) != names.hash(f) && h.canonicalKey != "h:" + names.hash(f)
  }

  /** The move that deals with an entry. */
  function MoveOf(s: Store, names: Names, device: string, now: int, k: JournalKey): Step {
    if k.kind == ObjectEntry && k.id in s.heads
    then MigrateObject(s.heads[k.id].pseudonym, names.metadata(k.id), names.hash(k.id), device, now)
    else MigrateTombstone(k.id, names.hash(k.id), device)
  }

  function Moves(s: Store, names: Names, device: string, now: int, order: seq<JournalKey>): seq<Step> {
    if order == [] then []
    else Moves(s, names, device, now, order[..|order| - 1]) + [MoveOf(s, names, device, now, order[|order| - 1])]
  }

  /** The migration is under way, in the hands of the device. */
  predicate InHand(r: RepoState, device: string) {
    r.meta == MetaMigrating && r.migration.owner == device && EpochReady(r)
  }

  /** Entries of the migration are done, or stand for something still to be done. */
  ghost predicate JournalFollows(s: Store) {
    forall k :: k in s.journal && k.migrationId == s.repo.migration.id ==> s.journal[k] == Done || k in Todo(s)
  }

  /** What holds after some of the moves: all is ready but for names, and what is still to be done is
      as it was at first. */
  ghost predicate OnCourse(s: Store, s1: Store, names: Names, device: string, now: int, left: set<JournalKey>) {
    Goes(s, names, device) && Todo(s) == left && Progress(s, s1, names, now, left)
  }

  ghost predicate Goes(s: Store, names: Names, device: string) {
    Sound(s) && InHand(s.repo, device) && AllReadyButForNames(s) && NoStaleChange(s) && JournalFollows(s) &&
    NamesAreFree(s, names)
  }

  /** No object is lost on the way: each is as it was, or moved. */
  ghost predicate Progress(s: Store, s1: Store, names: Names, now: int, left: set<JournalKey>) {
    s.repo.migration == s1.repo.migration && s.repo.formatEpoch == s1.repo.formatEpoch &&
    s.heads.Keys == s1.heads.Keys && s.tombs.Keys == s1.tombs.Keys &&
    forall f :: f in s1.heads ==> s.heads[f] == Expected(s1, names, now, left, f)
  }

  function Expected(s1: Store, names: Names, now: int, left: set<JournalKey>, f: string): Head
    requires f in s1.heads
  {
    var k := JournalKey(s1.repo.migration.id, f, ObjectEntry);
    if k in Todo(s1) && k !in left then MovedHead(s1.heads[f], names, now) else s1.heads[f]
  }

  // ---------- one object ----------

  /** A head moved by the migration. */
  function MovedHead(h: Head, names: Names, now: int): Head {
    h.(pseudonym := h.fileId, encryptedMetadata := names.metadata(h.fileId),
      canonicalKey := "h:" + names.hash(h.fileId),
      metaGeneration := if h.metaGeneration < 1 then 1 else h.metaGeneration, updatedAt := now)
  }

  lemma MoveIsCommitted(s: Store, names: Names, device: string, now: int, f: string)
    requires Sound(s) && InHand(s.repo, device) && NamesAreFree(s, names) && f in s.heads && s.heads[f].envelope >= 3
    requires !(s.heads[f].pseudonym == f && s.heads[f].encryptedMetadata != "")
    ensures var h := s.heads[f];
            MigrateObjectVerdict(s, h.pseudonym, names.metadata(f), names.hash(f), device, now) ==
            Commit(MovedHead(h, names, now)) && UniqueAllows(s.heads, MovedHead(h, names, now))
  {
    NamedIs(s.heads, s.heads[f].pseudonym);
    assert Named(s.heads, s.heads[f].pseudonym) == Some(s.heads[f]);
  }

  /** The journal with an entry done, if it is there. */
  function DoneIn(journal: map<JournalKey, Stage>, k: JournalKey): map<JournalKey, Stage> {
    if k in journal then journal[k := Done] else journal
  }

  /** One object has been moved, and told of under its id. */
  ghost predicate ObjectMoved(s: Store, s': Store, f: string, h: Head, change: Change) {
    h.fileId == f && h.pseudonym == f && h.encryptedMetadata != "" && change.fileId == change.pseudonym == f &&
    s' == s.(heads := s.heads[f := h], log := s.log + [change], repo := s.repo.(head := s.repo.head + 1),
      journal := DoneIn(s.journal, JournalKey(s.repo.migration.id, f, ObjectEntry)))
  }

  lemma MoveIsApplied(s: Store, cur: Option<Head>, now: int, h: Head)
    requires UniqueAllows(s.heads, h) && h.pseudonym == h.fileId && h.encryptedMetadata != ""
    ensures var s' := MigrateObjectApply(s, cur, now, Commit(h));
            s'.log != [] && ObjectMoved(s, s', h.fileId, h, s'.log[|s'.log| - 1])
  {
  }

  lemma MovedStaysReady(s: Store, s': Store, f: string, h: Head, change: Change)
    requires LifeCycle(s) && f in s.heads && OnlyNames(s.heads[f], h) && ObjectMoved(s, s', f, h, change)
    requires AllReadyButForNames(s)
    ensures AllReadyButForNames(s')
  {
    forall g | g in s'.heads ensures ReadyButForNames(s', g) { assert ReadyButForNames(s, g); }
  }

  lemma MovedIsNotStale(s: Store, s': Store, f: string, h: Head, change: Change)
    requires ObjectMoved(s, s', f, h, change) && NoStaleChange(s)
    ensures NoStaleChange(s')
  {
  }

  lemma MovedLeaves(s: Store, s': Store, f: string, h: Head, change: Change)
    requires f in s.heads && ObjectMoved(s, s', f, h, change)
    ensures Todo(s') == Todo(s) - {JournalKey(s.repo.migration.id, f, ObjectEntry)}
  {
    forall k: JournalKey
      ensures k in Todo(s') <==> k in Todo(s) && k != JournalKey(s.repo.migration.id, f, ObjectEntry)
    {
      WhatIsLeft(s, k);
      WhatIsLeft(s', k);
    }
  }

  lemma WhatIsLeft(s: Store, k: JournalKey)
    ensures k in Todo(s) <==>
              k.migrationId == s.repo.migration.id &&
              if k.kind == ObjectEntry
              then k.id in s.heads && !(s.heads[k.id].pseudonym == k.id && s.heads[k.id].encryptedMetadata != "")
              else k.kind == TombstoneEntry && k.id in s.tombs && s.tombs[k.id].lastPseudonym != k.id
  {
  }

  lemma JournalStillFollows(s: Store, s': Store, k: JournalKey)
    requires JournalFollows(s) && s'.journal == DoneIn(s.journal, k) && Todo(s') == Todo(s) - {k}
    requires s'.repo.migration == s.repo.migration
    ensures JournalFollows(s')
  {
  }

  lemma KeysDiffer(a: string, b: string)
    requires a != b
    ensures "h:" + a != "h:" + b
  {
    assert ("h:" + a)[2..] == a && ("h:" + b)[2..] == b;
  }

  lemma NamesStayFree(s: Store, s': Store, names: Names, f: string, now: int, change: Change)
    requires LifeCycle(s) && NamesAreFree(s, names) && f in s.heads
    requires ObjectMoved(s, s', f, MovedHead(s.heads[f], names, now), change)
    ensures NamesAreFree(s', names)
  {
    forall g, h | g in s'.heads && h in s'.heads && g != h ensures LeavesFree(s'.heads[h], h, names, g) {
      assert LeavesFree(s.heads[h], h, names, g);
      if h == f { KeysDiffer(names.hash(h), names.hash(g)); }
    }
  }

  lemma ObjectStep(o: Oracle, c: Config, s: Store, s1: Store, names: Names, device: string, now: int,
          left: set<JournalKey>, f: string)
    requires OnCourse(s, s1, names, device, now, left) && left <= Todo(s1)
    requires JournalKey(s1.repo.migration.id, f, ObjectEntry) in left && f in s1.heads
    ensures var k := JournalKey(s1.repo.migration.id, f, ObjectEntry);
            OnCourse(Next(o, c, s, MoveOf(s1, names, device, now, k)), s1, names, device, now, left - {k})
  {
    var k := JournalKey(s1.repo.migration.id, f, ObjectEntry);
    var step := MoveOf(s1, names, device, now, k);
    assert s.heads[f] == Expected(s1, names, now, left, f) == s1.heads[f] && ReadyButForNames(s, f);
    assert k in Todo(s);
    var s' := Next(o, c, s, step);
    StepIsMove(o, c, s, s1, names, device, now, f);
    MoveHappens(s, names, device, now, f);
    assert Sound(s') by { StepKeepsSound(o, c, s, step); }
    assert Todo(s') == left - {k} by { MovedLeaves(s, s', f, MovedHead(s.heads[f], names, now), s'.log[|s'.log| - 1]); }
    assert Goes(s', names, device) by { MovedGoes(s, s', names, device, now, f); }
    assert Progress(s', s1, names, now, left - {k}) by { MovedProgress(s, s', s1, names, now, left, f); }
  }

  lemma StepIsMove(o: Oracle, c: Config, s: Store, s1: Store, names: Names, device: string, now: int, f: string)
    requires f in s1.heads
    ensures Next(o, c, s, MoveOf(s1, names, device, now, JournalKey(s1.repo.migration.id, f, ObjectEntry))) ==
            MigrateObjectNext(s, s1.heads[f].pseudonym, names.metadata(f), names.hash(f), device, now)
  {
  }

  lemma MoveHappens(s: Store, names: Names, device: string, now: int, f: string)
    requires Sound(s) && InHand(s.repo, device) && NamesAreFree(s, names) && f in s.heads && s.heads[f].envelope >= 3
    requires !(s.heads[f].pseudonym == f && s.heads[f].encryptedMetadata != "")
    ensures var s' := MigrateObjectNext(s, s.heads[f].pseudonym, names.metadata(f), names.hash(f), device, now);
            s'.log != [] && ObjectMoved(s, s', f, MovedHead(s.heads[f], names, now), s'.log[|s'.log| - 1])
  {
    MoveIsCommitted(s, names, device, now, f);
    MoveIsApplied(s, Named(s.heads, s.heads[f].pseudonym), now, MovedHead(s.heads[f], names, now));
  }

  lemma MovedGoes(s: Store, s': Store, names: Names, device: string, now: int, f: string)
    requires Goes(s, names, device) && f in s.heads && Sound(s') && s'.log != []
    requires ObjectMoved(s, s', f, MovedHead(s.heads[f], names, now), s'.log[|s'.log| - 1])
    ensures Goes(s', names, device)
  {
    var h, change := MovedHead(s.heads[f], names, now), s'.log[|s'.log| - 1];
    assert AllReadyButForNames(s') by { MovedStaysReady(s, s', f, h, change); }
    assert NoStaleChange(s') by { MovedIsNotStale(s, s', f, h, change); }
    assert JournalFollows(s') by {
      MovedLeaves(s, s', f, h, change);
      JournalStillFollows(s, s', JournalKey(s.repo.migration.id, f, ObjectEntry));
    }
    assert NamesAreFree(s', names) by { NamesStayFree(s, s', names, f, now, change); }
  }

  lemma MovedProgress(s: Store, s': Store, s1: Store, names: Names, now: int, left: set<JournalKey>, f: string)
    requires Progress(s, s1, names, now, left) && f in s1.heads && s'.log != [] && LifeCycle(s)
    requires JournalKey(s1.repo.migration.id, f, ObjectEntry) in left && left <= Todo(s1)
    requires ObjectMoved(s, s', f, MovedHead(s.heads[f], names, now), s'.log[|s'.log| - 1])
    ensures Progress(s', s1, names, now, left - {JournalKey(s1.repo.migration.id, f, ObjectEntry)})
  {
    var k := JournalKey(s1.repo.migration.id, f, ObjectEntry);
    forall g | g in s1.heads ensures s'.heads[g] == Expected(s1, names, now, left - {k}, g) {
      assert s.heads[g] == Expected(s1, names, now, left, g);
    }
  }

  // ---------- one deletion ----------

  /** One deletion has been renamed to its id. */
  ghost predicate DeletionMoved(s: Store, s': Store, f: string, t: Tombstone) {
    f in s.tombs && t.lastPseudonym == f && t.fileId == s.tombs[f].fileId &&
    s' == s.(tombs := s.tombs[f := t],
      journal := DoneIn(s.journal, JournalKey(s.repo.migration.id, f, TombstoneEntry)))
  }

  lemma DeletionIsMoved(s: Store, names: Names, device: string, f: string)
    requires InHand(s.repo, device) && f in s.tombs && IsHex32(f) && IsHex64(names.hash(f))
    ensures var s' := MigrateTombstoneNext(s, f, names.hash(f), device);
            f in s'.tombs && DeletionMoved(s, s', f, s'.tombs[f])
  {
  }

  lemma DeletionLeaves(s: Store, s': Store, f: string, t: Tombstone)
    requires DeletionMoved(s, s', f, t)
    ensures Todo(s') == Todo(s) - {JournalKey(s.repo.migration.id, f, TombstoneEntry)}
  {
    forall k: JournalKey
      ensures k in Todo(s') <==> k in Todo(s) && k != JournalKey(s.repo.migration.id, f, TombstoneEntry)
    {
      WhatIsLeft(s, k);
      WhatIsLeft(s', k);
    }
  }

  lemma DeletionStaysReady(s: Store, s': Store, f: string, t: Tombstone)
    requires AllReadyButForNames(s) && DeletionMoved(s, s', f, t)
    ensures AllReadyButForNames(s')
  {
    forall g | g in s'.heads ensures ReadyButForNames(s', g) { assert ReadyButForNames(s, g); }
  }

  lemma DeletionGoes(s: Store, s': Store, names: Names, device: string, f: string, t: Tombstone)
    requires Goes(s, names, device) && Sound(s') && DeletionMoved(s, s', f, t)
    ensures Goes(s', names, device)
  {
    assert AllReadyButForNames(s') by { DeletionStaysReady(s, s', f, t); }
    assert JournalFollows(s') by {
      DeletionLeaves(s, s', f, t);
      JournalStillFollows(s, s', JournalKey(s.repo.migration.id, f, TombstoneEntry));
    }
  }

  lemma DeletionProgress(s: Store, s': Store, s1: Store, names: Names, now: int, left: set<JournalKey>, f: string,
          t: Tombstone)
    requires Progress(s, s1, names, now, left) && DeletionMoved(s, s', f, t)
    ensures Progress(s', s1, names, now, left - {JournalKey(s1.repo.migration.id, f, TombstoneEntry)})
  {
    var k := JournalKey(s1.repo.migration.id, f, TombstoneEntry);
    forall g | g in s1.heads ensures s'.heads[g] == Expected(s1, names, now, left - {k}, g) {
      assert s.heads[g] == Expected(s1, names, now, left, g);
    }
  }

  lemma DeletionStep(o: Oracle, c: Config, s: Store, s1: Store, names: Names, device: string, now: int,
          left: set<JournalKey>, f: string)
    requires OnCourse(s, s1, names, device, now, left)
    requires JournalKey(s1.repo.migration.id, f, TombstoneEntry) in left
    ensures var k := JournalKey(s1.repo.migration.id, f, TombstoneEntry);
            OnCourse(Next(o, c, s, MoveOf(s1, names, device, now, k)), s1, names, device, now, left - {k})
  {
    var k := JournalKey(s1.repo.migration.id, f, TombstoneEntry);
    var s' := Next(o, c, s, MoveOf(s1, names, device, now, k));
    StepKeepsSound(o, c, s, MoveOf(s1, names, device, now, k));
    assert k in Todo(s);
    DeletionIsMoved(s, names, device, f);
    DeletionLeaves(s, s', f, s'.tombs[f]);
    assert Goes(s', names, device) by { DeletionGoes(s, s', names, device, f, s'.tombs[f]); }
    assert Progress(s', s1, names, now, left - {k}) by {
      DeletionProgress(s, s', s1, names, now, left, f, s'.tombs[f]);
    }
  }

  // ---------- all of them ----------

  predicate Distinct<T(==)>(order: seq<T>) {
    forall i, j :: 0 <= i < j < |order| ==> order[i] != order[j]
  }

  function Elements<T(==)>(order: seq<T>): set<T> {
    set x | x in order
  }

  lemma {:induction false} MovesKeep(o: Oracle, c: Config, s1: Store, names: Names, device: string, now: int,
          all: set<JournalKey>, order: seq<JournalKey>, p: (Store, set<JournalKey>) -> bool)
    requires p(s1, all) && Distinct(order) && Elements(order) <= all
    requires forall s, left, k :: p(s, left) && k in left ==>
               p(Next(o, c, s, MoveOf(s1, names, device, now, k)), left - {k})
    ensures p(Run(o, c, s1, Moves(s1, names, device, now, order)), all - Elements(order))
  {
    if order == [] {
      assert all - Elements(order) == all;
    } else {
      var init, k := order[..|order| - 1], order[|order| - 1];
      assert Elements(order) == Elements(init) + {k} by { assert order == init + [k]; }
      MovesKeep(o, c, s1, names, device, now, all, init, p);
      RunOfMoves(o, c, s1, names, device, now, order);
      assert k in all - Elements(init);
      assert all - Elements(order) == all - Elements(init) - {k};
    }
  }

  lemma MovesStayOnCourse(o: Oracle, c: Config, s1: Store, names: Names, device: string, now: int,
          order: seq<JournalKey>)
    requires OnCourse(s1, s1, names, device, now, Todo(s1)) && Distinct(order) && Elements(order) <= Todo(s1)
    ensures OnCourse(Run(o, c, s1, Moves(s1, names, device, now, order)), s1, names, device, now,
              Todo(s1) - Elements(order))
  {
    var p := (s: Store, left: set<JournalKey>) => left <= Todo(s1) && OnCourse(s, s1, names, device, now, left);
    forall s, left, k | p(s, left) && k in left
      ensures p(Next(o, c, s, MoveOf(s1, names, device, now, k)), left - {k})
    {
      MoveStaysOnCourse(o, c, s, s1, names, device, now, left, k);
    }
    MovesKeep(o, c, s1, names, device, now, Todo(s1), order, p);
  }

  lemma RunOfMoves(o: Oracle, c: Config, s1: Store, names: Names, device: string, now: int, order: seq<JournalKey>)
    requires order != []
    ensures var init, k := order[..|order| - 1], order[|order| - 1];
            Run(o, c, s1, Moves(s1, names, device, now, order)) ==
            Next(o, c, Run(o, c, s1, Moves(s1, names, device, now, init)), MoveOf(s1, names, device, now, k))
  {
    var init, moves := order[..|order| - 1], Moves(s1, names, device, now, order);
    assert moves[..|moves| - 1] == Moves(s1, names, device, now, init);
  }

  lemma MoveStaysOnCourse(o: Oracle, c: Config, s: Store, s1: Store, names: Names, device: string, now: int,
          left: set<JournalKey>, k: JournalKey)
    requires OnCourse(s, s1, names, device, now, left) && k in left && left <= Todo(s1)
    ensures OnCourse(Next(o, c, s, MoveOf(s1, names, device, now, k)), s1, names, device, now, left - {k})
  {
    if k.kind == ObjectEntry { ObjectStep(o, c, s, s1, names, device, now, left, k.id); }
    else { DeletionStep(o, c, s, s1, names, device, now, left, k.id); }
  }

  // ---------- from the beginning to the end ----------

  lemma BeginningGoes(s: Store, names: Names, device: string, newId: string, now: int, missed: set<JournalKey>)
    requires Sound(s) && MayBegin(s.repo) && AllReadyButForNames(s) && NamesAreFree(s, names)
    requires forall k :: k in s.journal ==> k.migrationId != newId
    ensures var s1 := BeginNext(s, device, newId, now, missed);
            Goes(s1, names, device) && s1.heads == s.heads && s1.tombs == s.tombs && s1.repo.migration.id == newId &&
            s1.repo.formatEpoch == s.repo.formatEpoch && s1.repo.migration.targetEpoch == s.repo.formatEpoch + 1
  {
    var s1 := BeginNext(s, device, newId, now, missed);
    forall f | f in s1.heads ensures ReadyButForNames(s1, f) { assert ReadyButForNames(s, f); }
  }

  /** With nothing left to do the validator has nothing to report, and the switch is made. */
  lemma DoneCompletes(s: Store, names: Names, device: string)
    requires Goes(s, names, device) && Todo(s) == {}
    ensures var s' := VerifyNext(s, device);
            s' == s.(repo := s.repo.(meta := MetaVerifying)) &&
            CompleteVerdict(s', s'.repo.migration.id, device, 0, 0, Wiped).None?
  {
    var s' := VerifyNext(s, device);
    assert JournalFinished(s);
    forall f | f in s'.heads ensures HeadReady(s', f) && GenerationMonotonic(s', f) {
      assert ReadyButForNames(s, f);
      assert JournalKey(s.repo.migration.id, f, ObjectEntry) !in Todo(s);
    }
    forall f | f in s'.tombs ensures s'.tombs[f].lastPseudonym == s'.tombs[f].fileId {
      assert JournalKey(s.repo.migration.id, f, TombstoneEntry) !in Todo(s);
    }
  }

  /** What an object is in the end: as it was, if it was already known by its id alone. */
  function Final(h: Head, names: Names, now: int): Head {
    if h.pseudonym == h.fileId && h.encryptedMetadata != "" then h else MovedHead(h, names, now)
  }

  /** The whole migration. */
  function WholeMigration(s1: Store, names: Names, device: string, now: int, order: seq<JournalKey>, newId: string)
    : seq<Step>
  {
    Moves(s1, names, device, now, order) + [Verify(device), Complete(newId, device, 0, 0, Wiped)]
  }

  /** The migration comes to its end, from any plain vault that may begin it and in which nothing but
      names keeps the objects from completion: begun, each object and deletion that is addressed by a
      name moved once, in any order and with names that are well formed and free, verified, and
      completed with no named share or sentinel and a clean wipe.  Every object is then known by its
      id, its metadata the given one, and is otherwise what it was; no deletion is lost; clients of
      the old format are shut out. */
  lemma MigrationCompletes(o: Oracle, c: Config, s: Store, names: Names, device: string, newId: string, now: int,
          missed: set<JournalKey>, order: seq<JournalKey>)
    requires Sound(s) && MayBegin(s.repo) && AllReadyButForNames(s) && NamesAreFree(s, names)
    requires 1 <= s.repo.formatEpoch && forall k :: k in s.journal ==> k.migrationId != newId
    requires Distinct(order) && Elements(order) == Todo(Next(o, c, s, Begin(device, newId, now, missed)))
    ensures var s1 := Next(o, c, s, Begin(device, newId, now, missed));
            var s' := Run(o, c, s1, WholeMigration(s1, names, device, now, order, newId));
            s'.repo.meta == MetaEncrypted && s'.repo.formatEpoch == s.repo.formatEpoch + 1 && Private(s') &&
            s'.heads == (map f | f in s.heads :: Final(s.heads[f], names, now)) && s'.tombs.Keys == s.tombs.Keys
  {
    assert Next(o, c, s, Begin(device, newId, now, missed)) == BeginNext(s, device, newId, now, missed);
    BeginningGoes(s, names, device, newId, now, missed);
    CourseIsRun(o, c, BeginNext(s, device, newId, now, missed), names, device, now, order);
  }

  lemma CourseIsRun(o: Oracle, c: Config, s1: Store, names: Names, device: string, now: int, order: seq<JournalKey>)
    requires Goes(s1, names, device) && 1 <= s1.repo.formatEpoch && Distinct(order) && Elements(order) == Todo(s1)
    ensures var s' := Run(o, c, s1, WholeMigration(s1, names, device, now, order, s1.repo.migration.id));
            s'.repo.meta == MetaEncrypted && s'.repo.formatEpoch == s1.repo.migration.targetEpoch && Private(s') &&
            s'.heads == (map f | f in s1.heads :: Final(s1.heads[f], names, now)) && s'.tombs.Keys == s1.tombs.Keys
  {
    var s2 := Run(o, c, s1, Moves(s1, names, device, now, order));
    assert OnCourse(s2, s1, names, device, now, {}) by {
      MovesStayOnCourse(o, c, s1, names, device, now, order);
      assert Todo(s1) - Elements(order) == {};
    }
    RunOfMigration(o, c, s1, names, device, now, order, s1.repo.migration.id);
    EndOfCourse(o, c, s2, s1, names, device, now);
  }

  lemma RunOfMigration(o: Oracle, c: Config, s1: Store, names: Names, device: string, now: int,
          order: seq<JournalKey>, newId: string)
    ensures Run(o, c, s1, WholeMigration(s1, names, device, now, order, newId)) ==
            CompleteNext(VerifyNext(Run(o, c, s1, Moves(s1, names, device, now, order)), device), newId, device, 0, 0,
              Wiped)
  {
    var moves, s2 := Moves(s1, names, device, now, order), Run(o, c, s1, Moves(s1, names, device, now, order));
    RunOfTwo(o, c, s1, moves, Verify(device), Complete(newId, device, 0, 0, Wiped));
    assert Next(o, c, s2, Verify(device)) == VerifyNext(s2, device);
  }

  lemma RunOfTwo(o: Oracle, c: Config, s: Store, steps: seq<Step>, a: Step, b: Step)
    ensures Run(o, c, s, steps + [a, b]) == Next(o, c, Next(o, c, Run(o, c, s, steps), a), b)
  {
    var all := steps + [a, b];
    assert all[..|all| - 1] == steps + [a];
    assert (steps + [a])[..|steps|] == steps;
  }

  lemma EndOfCourse(o: Oracle, c: Config, s2: Store, s1: Store, names: Names, device: string, now: int)
    requires OnCourse(s2, s1, names, device, now, {}) && LifeCycle(s1) && 1 <= s2.repo.formatEpoch
    ensures var s' := CompleteNext(VerifyNext(s2, device), s1.repo.migration.id, device, 0, 0, Wiped);
            s'.repo.meta == MetaEncrypted && s'.repo.formatEpoch == s1.repo.migration.targetEpoch && Private(s') &&
            s'.heads == (map f | f in s1.heads :: Final(s1.heads[f], names, now)) && s'.tombs.Keys == s1.tombs.Keys
  {
    var s3 := VerifyNext(s2, device);
    DoneCompletes(s2, names, device);
    assert Sound(s3) by { StepKeepsSound(o, c, s2, Verify(device)); }
    SwitchIsMade(o, c, s3, device);
    AllAreFinal(s2, s1, names, device, now);
  }

  lemma SwitchIsMade(o: Oracle, c: Config, s: Store, device: string)
    requires Sound(s) && 1 <= s.repo.formatEpoch < s.repo.migration.targetEpoch && s.repo.meta == MetaVerifying
    requires CompleteVerdict(s, s.repo.migration.id, device, 0, 0, Wiped).None?
    ensures var s' := CompleteNext(s, s.repo.migration.id, device, 0, 0, Wiped);
            s'.repo.meta == MetaEncrypted && s'.repo.formatEpoch == s.repo.migration.targetEpoch && Private(s') &&
            s'.heads == s.heads && s'.tombs == s.tombs
  {
    CompleteIsPrivate(o, c, s, s.repo.migration.id, device, 0, 0, Wiped);
  }

  lemma AllAreFinal(s2: Store, s1: Store, names: Names, device: string, now: int)
    requires Progress(s2, s1, names, now, {}) && LifeCycle(s1)
    ensures s2.heads == map f | f in s1.heads :: Final(s1.heads[f], names, now)
  {
    forall f | f in s1.heads ensures s2.heads[f] == Final(s1.heads[f], names, now) {
      assert s2.heads[f] == Expected(s1, names, now, {}, f);
    }
  }
}
