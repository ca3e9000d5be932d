/** Short histories of a fresh vault in which a client repeats itself. */
module RetryScenarios {
  import opened Bytes
  import opened Options
  import opened Tables
  import opened Requests
  import opened Steps
  import opened Effects
  import opened Runs
  import opened Idempotence
  import opened Retries
  import opened Scenarios

  lemma RenameStep(o: Oracle, c: Config, s: Store, q: RenameRequest)
    ensures Next(o, c, s, Rename(q)) == RenameNext(o, s, q)
  {
  }

  // ---------- an operation id used twice ----------

  /** The delete of the note is taken, whatever its operation id. */
  lemma RemovalIsTaken(s: Store, op: string)
    requires HasNote(s)
    ensures DeleteVerdict(Plain(), s, Remove("n", 1, op)) == Commit(First("n", Id(), Note()))
  {
    NamesOfOne(s);
    NamedIs(s.heads, "n");
    assert Id() in s.heads && s.heads[Id()].pseudonym == "n";
  }

  /** A note uploaded and deleted under one operation id: the log has two changes of it by that id. */
  lemma OneIdTwoChanges(c: Config)
    requires !c.historyEnabled
    ensures var s := Run(Plain(), c, EmptyStore(""), Uploaded("x") + [DeleteObject(Remove("n", 1, "x"))]);
            |s.log| == 2 && SameOperation(s.log[0], s.log[1])
  {
    var s := Run(Plain(), c, EmptyStore(""), Uploaded("x"));
    OneNote(c, "x");
    Further(Plain(), c, EmptyStore(""), Uploaded("x"), DeleteObject(Remove("n", 1, "x")));
    RemovalIsTaken(s, "x");
  }

  // ---------- a rename sent twice ----------

  function Moved(): Head {
    First("n", Id(), Note()).(pseudonym := "m", canonicalKey := "m", metaGeneration := 1)
  }

  lemma MoveIsTaken(s: Store, op: string)
    requires HasNote(s) && !Logged(s.log, Id(), op)
    ensures RenameVerdict(Plain(), s, Move("n", "m", op)) == Commit(Moved()) && UniqueAllows(s.heads, Moved())
  {
    NamesOfOne(s);
    NamedIs(s.heads, "n");
    NamedIs(s.heads, "m");
    assert Id() in s.heads && s.heads[Id()].pseudonym == "n";
  }

  /** Upload, rename, and the same rename again: it is not answered from the log, but not found. */
  lemma SecondRenameIsNotFound(c: Config)
    requires !c.historyEnabled
    ensures var s := Run(Plain(), c, EmptyStore(""), Uploaded() + [Rename(Move("n", "m", "x"))]);
            s.heads == map[Id() := Moved()] && Logged(s.log, Id(), "x") &&
            RenameVerdict(Plain(), s, Move("n", "m", "x")) == Refuse(NotFound)
  {
    var s, q := Run(Plain(), c, EmptyStore(""), Uploaded()), Move("n", "m", "x");
    OneNote(c);
    Further(Plain(), c, EmptyStore(""), Uploaded(), Rename(q));
    RenameStep(Plain(), c, s, q);
    MoveIsTaken(s, "x");
    MoveIsWritten(s, "x");
    MoveIsNotFound(RenameNext(Plain(), s, q), "x");
  }

  lemma MoveIsNotFound(s: Store, op: string)
    requires s.heads == map[Id() := Moved()] && PlainVault(s.repo)
    ensures RenameVerdict(Plain(), s, Move("n", "m", op)) == Refuse(NotFound)
  {
    assert Named(s.heads, "n").None?;
  }

  lemma MoveIsWritten(s: Store, op: string)
    requires HasNote(s) && UniqueAllows(s.heads, Moved())
    ensures var s' := RenameApply(s, Move("n", "m", op), Commit(Moved()));
            s'.heads == map[Id() := Moved()] && s'.tombs == map[] && s'.ledger == s.ledger && PlainVault(s'.repo) &&
            (op != "" ==> Logged(s'.log, Id(), op))
  {
    var s' := RenameApply(s, Move("n", "m", op), Commit(Moved()));
    assert s'.heads == s.heads[Id() := Moved()];
    assert s'.log[|s.log|].operationId == op && s'.log[|s.log|].fileId == Id();
  }

  // ---------- a creation sent twice ----------

  /** A note whose id the server draws; it will draw another one when asked again. */
  function Drawn(): UploadRequest {
    Put("n", "", 0, Note(), NoFault, "x").(freshIds := [Id(), OtherId()])
  }

  lemma DrawnIsFirst(c: Config)
    requires !c.historyEnabled
    ensures HasNote(Run(Plain(), c, EmptyStore(""), [Upload(Drawn())])) &&
            NoteIsFirst(Run(Plain(), c, EmptyStore(""), [Upload(Drawn())]), "x")
  {
    NewNameIsDrawn(EmptyStore(""), Note(), [], "n", Id(), [Id(), OtherId()], Note(), "x");
    FirstUpload(Plain(), c, EmptyStore(""), Drawn());
    NoteIsStored(c, Drawn());
  }

  lemma TakenIsWritten(o: Oracle, c: Config, s: Store, q: UploadRequest, h: Head)
    requires UniqueAllows(s.heads, h) && q.fault == NoFault
    ensures var s' := UploadApply(o, c, s, q, Commit(h));
            s'.heads == s.heads[h.fileId := h] && s'.tombs == s.tombs && s'.repo == s.repo.(head := s.repo.head + 1)
  {
    var blobs := StoreBlob(o, c.strictVerify, s.blobs, h.blobId, q.body, q.fault, q.quarantineFull).1;
    UploadTables(o, c, s.(blobs := blobs), h, q);
    UploadPublishes(o, c, s.(blobs := blobs), h, q);
  }

  /** The note has gone to another name; the creation is taken once more. */
  lemma CreationIsTakenAgain(c: Config, s: Store)
    requires s.heads == map[Id() := Moved()] && s.tombs == map[] && Id() in s.ledger && OtherId() !in s.ledger &&
             PlainVault(s.repo)
    ensures UploadNext(Plain(), c, s, Drawn()).heads ==
            map[Id() := Moved(), OtherId() := First("n", OtherId(), Note())]
  {
    IdsAreHex();
    NewNameIsDrawn(s, Note(), [], "n", OtherId(), [Id(), OtherId()], Note(), "x");
    TakenIsWritten(Plain(), c, s, Drawn(), First("n", OtherId(), Note()));
  }

  /** Create, rename, and the creation once more, under its operation id: there are two objects with
      the one content. */
  lemma CreatedTwice(c: Config)
    requires !c.historyEnabled
    ensures var s := Run(Plain(), c, EmptyStore(""),
              [Upload(Drawn())] + [Rename(Move("n", "m", "y"))] + [Upload(Drawn())]);
            s.heads == map[Id() := Moved(), OtherId() := First("n", OtherId(), Note())] &&
            Moved().contentHash == First("n", OtherId(), Note()).contentHash
  {
    var s, q := Run(Plain(), c, EmptyStore(""), [Upload(Drawn())]), Move("n", "m", "y");
    DrawnIsFirst(c);
    MovedThenCreated(c, s);
    TwoFurther(Plain(), c, EmptyStore(""), [Upload(Drawn())], Rename(q), Upload(Drawn()));
    RenameThenUpload(Plain(), c, s, q, Drawn());
  }

  lemma MovedThenCreated(c: Config, s: Store)
    requires HasNote(s) && NoteIsFirst(s, "x")
    ensures UploadNext(Plain(), c, RenameNext(Plain(), s, Move("n", "m", "y")), Drawn()).heads ==
            map[Id() := Moved(), OtherId() := First("n", OtherId(), Note())]
  {
    MoveIsTaken(s, "y");
    MoveIsWritten(s, "y");
    CreationIsTakenAgain(c, RenameNext(Plain(), s, Move("n", "m", "y")));
  }

  lemma RenameThenUpload(o: Oracle, c: Config, s: Store, q: RenameRequest, u: UploadRequest)
    ensures Next(o, c, Next(o, c, s, Rename(q)), Upload(u)) == UploadNext(o, c, RenameNext(o, s, q), u)
  {
    RenameStep(o, c, s, q);
  }

  // ---------- a delete sent twice ----------

  function Recovered(): Head {
    Head(Id(), 3, 0, "k1", "1", 1, 1000, 1, "m", "", "m", 0, 0, 1, 1)
  }

  /** The deleted note is restored under another name, and another note comes to the old one. */
  function Replaced(op: string): seq<Step> {
    Deleted(op) + [RestoreObject(Recover(Id(), 2, "m"))] + [Upload(Put("n", OtherId(), 0, Note(), NoFault))]
  }

  ghost predicate HasBoth(s: Store) {
    s.heads == map[Id() := Recovered(), OtherId() := First("n", OtherId(), Note())] && s.tombs == map[] &&
    PlainVault(s.repo)
  }

  lemma NoteComesBackElsewhere(c: Config, s: Store)
    requires LostNote(s)
    ensures var s' := RestoreNext(Plain(), c, s, Recover(Id(), 2, "m"));
            s'.heads == map[Id() := Recovered()] && s'.tombs == map[] && Id() in s'.ledger &&
            OtherId() !in s'.ledger && PlainVault(s'.repo)
  {
    IdsAreHex();
    RestoreIsTaken(s);
    RecoveryIsWritten(c, s);
  }

  lemma RestoreIsTaken(s: Store)
    requires LostNote(s) && IsHex32(Id()) && !Logged(s.log, Id(), "")
    ensures RestoreVerdict(Plain(), s, Recover(Id(), 2, "m")) == Commit(Recovered())
    ensures UniqueAllows(s.heads, Recovered())
  {
    NamedIs(s.heads, "m");
    var h := RestoreVerdict(Plain(), s, Recover(Id(), 2, "m")).head;
    assert h.blobId == "k1" && h.size == 1;
    assert h.envelope == 0;
    assert h == Recovered();
  }

  lemma RecoveryIsWritten(c: Config, s: Store)
    requires LostNote(s) && UniqueAllows(s.heads, Recovered()) && OtherId() != Id()
    ensures var s' := RestoreApply(c, s, Recover(Id(), 2, "m"), Commit(Recovered()));
            s'.heads == map[Id() := Recovered()] && s'.tombs == map[] && Id() in s'.ledger &&
            OtherId() !in s'.ledger && PlainVault(s'.repo)
  {
    assert map[Id() := NoteTombstone()] - {Id()} == map[];
    assert map[][Id() := Recovered()] == map[Id() := Recovered()];
  }

  lemma NoteIsReplaced(c: Config, s: Store)
    requires s.heads == map[Id() := Recovered()] && s.tombs == map[] && OtherId() !in s.ledger && PlainVault(s.repo)
    ensures HasBoth(UploadNext(Plain(), c, s, Put("n", OtherId(), 0, Note(), NoFault)))
  {
    IdsAreHex();
    var q, h := Put("n", OtherId(), 0, Note(), NoFault), First("n", OtherId(), Note());
    NewNameIsTaken(s, Note(), [], "n", OtherId(), Note(), NoFault);
    TakenIsWritten(Plain(), c, s, q, h);
  }

  /** The delete, sent once more under its operation id, is taken for the other note. */
  lemma SecondDeleteTakesAnother(c: Config, op: string)
    requires !c.historyEnabled && c.tombstoneDays == 0
    ensures HasBoth(Run(Plain(), c, EmptyStore(""), Replaced(op)))
    ensures Run(Plain(), c, EmptyStore(""), Replaced(op) + [DeleteObject(Remove("n", 1, op))]).heads ==
            map[Id() := Recovered()]
  {
    var s0 := Run(Plain(), c, EmptyStore(""), Deleted(op));
    OneDeletion(c, op);
    NoteComesBackElsewhere(c, s0);
    NoteIsReplaced(c, RestoreNext(Plain(), c, s0, Recover(Id(), 2, "m")));
    TwoFurther(Plain(), c, EmptyStore(""), Deleted(op), RestoreObject(Recover(Id(), 2, "m")),
      Upload(Put("n", OtherId(), 0, Note(), NoFault)));
    RestoreThenUpload(Plain(), c, s0, Recover(Id(), 2, "m"), Put("n", OtherId(), 0, Note(), NoFault));
    var s := Run(Plain(), c, EmptyStore(""), Replaced(op));
    OtherIsDeleted(c, s, op);
    Further(Plain(), c, EmptyStore(""), Replaced(op), DeleteObject(Remove("n", 1, op)));
  }

  lemma RestoreThenUpload(o: Oracle, c: Config, s: Store, q: RestoreRequest, u: UploadRequest)
    ensures Next(o, c, Next(o, c, s, RestoreObject(q)), Upload(u)) == UploadNext(o, c, RestoreNext(o, c, s, q), u)
  {
  }

  lemma OtherIsDeleted(c: Config, s: Store, op: string)
    requires HasBoth(s)
    ensures DeleteNext(Plain(), c, s, Remove("n", 1, op)).heads == map[Id() := Recovered()]
  {
    IdsAreHex();
    var h := First("n", OtherId(), Note());
    assert OtherId() in s.heads && s.heads[OtherId()] == h && h.pseudonym == "n" && h.revision == 1;
    assert forall f :: f in s.heads && s.heads[f].pseudonym == "n" ==> f == OtherId();
    assert Named(s.heads, "n") == Some(h);
    assert s.heads - {OtherId()} == map[Id() := Recovered()];
  }
}
