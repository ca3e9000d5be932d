/** Short histories of a fresh vault, each ending in one of the failures the theorems name. */
module Scenarios {
  import opened Bytes
  import opened Envelope
  import opened Options
  import opened Tables
  import opened Requests
  import opened Steps
  import opened Effects
  import opened Runs
  import opened Stored
  import opened Generations
  import opened Privacy
  import ServiceModule
  import Policies

  function Note(): bytes { [7] }

  /** Hashes that tell two contents apart, names that are their own normal form, and notes all that
      does not go by an id. */
  function Telling(a: bytes, b: bytes): Oracle {
    Oracle(x => if x == a then "1" else if x == b then "2"
      else "0", h => "k" + h, path => path, path => true, path => |path| != 32)
  }

  function Plain(): Oracle { Telling(Note(), []) }

  function Unlimited(historyEnabled: bool): Config {
    Config(historyEnabled, false, 0, 0, 0, 0, 0, 0, 0, 0)
  }

  function Id(): string { seq(32, i => 'a') }

  function OtherId(): string { seq(32, i => 'b') }

  /** A client that says nothing of itself, with an operation id or without. */
  function Under(op: string): ClientContext { ClientContext(0, "", 0, 0, op) }

  function PutTo(o: Oracle, path: string, fileId: string, base: int, body: bytes, fault: Fault, op: string := ""):
    UploadRequest
  {
    UploadRequest(path, base, o.hash(body), 1, "", None, fileId, "", "", Under(op), body, 1, 1, [], fault, false)
  }

  function Put(path: string, fileId: string, base: int, body: bytes, fault: Fault, op: string := ""): UploadRequest {
    PutTo(Plain(), path, fileId, base, body, fault, op)
  }

  function Remove(path: string, base: int, op: string := ""): DeleteRequest {
    DeleteRequest(path, base, "", Under(op), 1)
  }

  function Move(from: string, to: string, op: string): RenameRequest {
    RenameRequest(from, to, 0, "", "", "", Under(op), 1)
  }

  function Recover(fileId: string, expected: int, path: string): RestoreRequest {
    RestoreRequest(fileId, expected, 0, path, "", "", "", Under(""), 1)
  }

  lemma Further(o: Oracle, c: Config, s: Store, steps: seq<Step>, step: Step)
    ensures Run(o, c, s, steps + [step]) == Next(o, c, Run(o, c, s, steps), step)
  {
    assert (steps + [step])[..|steps|] == steps;
  }

  lemma FirstUpload(o: Oracle, c: Config, s: Store, q: UploadRequest)
    ensures Run(o, c, s, [Upload(q)]) == UploadNext(o, c, s, q)
  {
    Further(o, c, s, [], Upload(q));
    assert [] + [Upload(q)] == [Upload(q)];
  }

  lemma TwoFurther(o: Oracle, c: Config, s: Store, steps: seq<Step>, a: Step, b: Step)
    ensures Run(o, c, s, steps + [a] + [b]) == Next(o, c, Next(o, c, Run(o, c, s, steps), a), b)
  {
    Further(o, c, s, steps, a);
    Further(o, c, s, steps + [a], b);
  }

  lemma CollectRestore(o: Oracle, c: Config, s: Store, blobs: set<string>, q: RestoreRequest)
    ensures Next(o, c, Next(o, c, s, Collect(blobs)), RestoreObject(q)) == RestoreNext(o, c, CollectNext(s, blobs), q)
  {
  }

  lemma DamageUpload(o: Oracle, c: Config, s: Store, blob: string, content: bytes, q: UploadRequest)
    ensures Next(o, c, Next(o, c, s, Damage(blob, content)), Upload(q)) ==
            UploadNext(o, c, DamageNext(s, blob, content), q)
  {
  }

  lemma EncryptRestore(o: Oracle, c: Config, s: Store, q: RestoreRequest)
    ensures Next(o, c, Next(o, c, Next(o, c, s, BeginContent), CompleteContent), RestoreObject(q)) ==
            RestoreNext(o, c, CompleteContentNext(BeginContentNext(s)), q)
  {
  }

  /** The head of a new object. */
  function FirstOf(o: Oracle, path: string, fileId: string, body: bytes): Head {
    WithContent(o, Head(fileId, 1, 0, "", "", 0, 0, 0, path, "", path, 0, 0, 1, 1),
      PutTo(o, path, fileId, 0, body, NoFault))
  }

  function First(path: string, fileId: string, body: bytes): Head {
    FirstOf(Plain(), path, fileId, body)
  }

  lemma IdsAreHex()
    ensures IsHex32(Id()) && IsHex32(OtherId()) && Id() != OtherId() && Id() != "" && OtherId() != ""
  {
    assert Id()[0] != OtherId()[0];
  }

  predicate PlainVault(r: RepoState) {
    r.formatEpoch == 1 && r.meta == MetaPlain && r.content == Plaintext && r.minEnvelope == 0
  }

  /** In a plaintext vault a new name is taken, unless something has it; here the server draws the id. */
  lemma NewNameIsDrawn(s: Store, a: bytes, b: bytes, path: string, fileId: string, random: seq<string>, body: bytes,
          op: string)
    requires NamesUnique(s.heads) && FirstUnused(s.ledger, random, 4) == Some(fileId) && PlainVault(s.repo)
    requires forall f :: f in s.heads ==> s.heads[f].pseudonym != path && s.heads[f].canonicalKey != path
    requires s.tombs == map[]
    ensures var o := Telling(a, b);
            UploadVerdict(o, s, PutTo(o, path, "", 0, body, NoFault, op).(freshIds := random)) ==
            Commit(FirstOf(o, path, fileId, body)) &&
            (fileId !in s.heads ==> UniqueAllows(s.heads, FirstOf(o, path, fileId, body)))
  {
    NamedIs(s.heads, path);
  }

  /** And here the client does. */
  lemma NewNameIsTaken(s: Store, a: bytes, b: bytes, path: string, fileId: string, body: bytes, fault: Fault,
          op: string := "")
    requires NamesUnique(s.heads) && IsHex32(fileId) && fileId != "" && fileId !in s.ledger && PlainVault(s.repo)
    requires forall f :: f in s.heads ==> s.heads[f].pseudonym != path && s.heads[f].canonicalKey != path
    requires s.tombs == map[]
    ensures var o := Telling(a, b);
            UploadVerdict(o, s, PutTo(o, path, fileId, 0, body, fault, op)) == Commit(FirstOf(o, path, fileId, body)) &&
            UniqueAllows(s.heads, FirstOf(o, path, fileId, body))
  {
    NamedIs(s.heads, path);
  }

  // ---------- a note, uploaded and deleted ----------

  function Uploaded(op: string := ""): seq<Step> { [Upload(Put("n", Id(), 0, Note(), NoFault, op))] }

  /** The vault with one note in it. */
  ghost predicate HasNote(s: Store) {
    var h := First("n", Id(), Note());
    s.heads == map[Id() := h] && s.tombs == map[] && Id() in s.ledger && OtherId() !in s.ledger &&
      s.versions == map[] && s.blobs == map["k1" := Note()] &&
    s.repo == EmptyStore("").repo.(head := 1)
  }

  /** It was the first thing that happened. */
  predicate NoteIsFirst(s: Store, op: string) {
    |s.log| == 1 && s.log[0].fileId == Id() && s.log[0].operationId == op
  }

  lemma OneNote(c: Config, op: string := "")
    requires !c.historyEnabled
    ensures var s := Run(Plain(), c, EmptyStore(""), Uploaded(op)); HasNote(s) && NoteIsFirst(s, op)
  {
    var o, s := Plain(), EmptyStore("");
    IdsAreHex();
    NewNameIsTaken(s, Note(), [], "n", Id(), Note(), NoFault, op);
    FirstUpload(o, c, s, Put("n", Id(), 0, Note(), NoFault, op));
    NoteIsStored(c, Put("n", Id(), 0, Note(), NoFault, op));
  }

  lemma NoteIsStored(c: Config, q: UploadRequest)
    requires !c.historyEnabled && q.fault == NoFault && q.body == Note()
    ensures var s := UploadApply(Plain(), c, EmptyStore(""), q, Commit(First("n", Id(), Note())));
            HasNote(s) && NoteIsFirst(s, q.client.operationId)
  {
    IdsAreHex();
    var h := First("n", Id(), Note());
    assert h.blobId == "k1";
    assert map[]["k1" := Note()] == map["k1" := Note()];
    assert map[][Id() := h] == map[Id() := h];
  }

  function Deleted(op: string := ""): seq<Step> { Uploaded() + [DeleteObject(Remove("n", 1, op))] }

  function NoteTombstone(): Tombstone {
    Tombstone(Id(), "n", "n", 2, 0, 0, 0, "1", 1, 2, 0, false)
  }

  /** The vault after the note was deleted: nothing but the deletion knows of its content. */
  ghost predicate LostNote(s: Store) {
    s.heads == map[] && s.tombs == map[Id() := NoteTombstone()] && Id() in s.ledger && !s.ledger[Id()].live &&
      OtherId() !in s.ledger && s.versions == map[] &&
    s.blobs == map["k1" := Note()] && s.repo == EmptyStore("").repo.(head := 2)
  }

  lemma OneDeletion(c: Config, op: string := "")
    requires !c.historyEnabled && c.tombstoneDays == 0
    ensures LostNote(Run(Plain(), c, EmptyStore(""), Deleted(op)))
  {
    var o, s := Plain(), Run(Plain(), c, EmptyStore(""), Uploaded());
    OneNote(c);
    Further(o, c, EmptyStore(""), Uploaded(), DeleteObject(Remove("n", 1, op)));
    NamesOfOne(s);
    NamedIs(s.heads, "n");
    assert Id() in s.heads && s.heads[Id()].pseudonym == "n";
    IdsAreHex();
    NoteIsDeleted(c, s, op);
  }

  lemma NamesOfOne(s: Store)
    requires HasNote(s)
    ensures NamesUnique(s.heads)
  {
  }

  lemma NoteIsDeleted(c: Config, s: Store, op: string)
    requires !c.historyEnabled && c.tombstoneDays == 0 && HasNote(s) && OtherId() != Id()
    ensures LostNote(DeleteApply(c, s, Remove("n", 1, op), Commit(First("n", Id(), Note()))))
  {
    var h := First("n", Id(), Note());
    assert h.fileId == Id() && h.contentHash == "1";
    assert PriorContentHash(s.versions, Id()) == "";
    assert TombstoneOf(c, s, h, 1) == NoteTombstone();
    assert s.heads - {Id()} == map[];
    assert map[][Id() := NoteTombstone()] == map[Id() := NoteTombstone()];
  }

  /** It can be restored under its name. */
  lemma NoteComesBack(s: Store)
    requires s.heads == map[] && s.tombs == map[Id() := NoteTombstone()] && s.repo.meta == MetaPlain &&
             s.repo.formatEpoch == 1
    ensures RestoreVerdict(Plain(), s, Recover(Id(), 2, "n")).Commit?
    ensures UniqueAllows(s.heads, RestoreVerdict(Plain(), s, Recover(Id(), 2, "n")).head)
    ensures BlobOf(Plain(), s.tombs[Id()].priorContentHash) == "k1"
  {
    IdsAreHex();
    NamedIs(s.heads, "n");
  }

  lemma CollectedThenRestored(c: Config, s: Store)
    requires LostNote(s)
    ensures !AllStored(RestoreNext(Plain(), c, CollectNext(s, {"k1"}), Recover(Id(), 2, "n")))
  {
    NoteComesBack(CollectNext(s, {"k1"}));
    assert BlobOf(Plain(), s.tombs[Id()].priorContentHash) == "k1" && !Referenced(s.heads, s.versions, "k1");
    CollectedPriorDangles(Plain(), c, s, Id(), Recover(Id(), 2, "n"));
  }

  /** Upload, delete, collect, restore, without history: the restored object has no content. */
  lemma RestoreDangles(c: Config)
    requires !c.historyEnabled && c.tombstoneDays == 0
    ensures !AllStored(Run(Plain(), c, EmptyStore(""),
              Deleted() + [Collect({"k1"})] + [RestoreObject(Recover(Id(), 2, "n"))]))
  {
    OneDeletion(c);
    CollectedThenRestored(c, Run(Plain(), c, EmptyStore(""), Deleted()));
    TwoFurther(Plain(), c, EmptyStore(""), Deleted(), Collect({"k1"}), RestoreObject(Recover(Id(), 2, "n")));
    CollectRestore(Plain(), c, Run(Plain(), c, EmptyStore(""), Deleted()), {"k1"}, Recover(Id(), 2, "n"));
  }

  ghost predicate Undercut(s: Store, f: string) {
    f in s.heads && s.heads[f].envelope < s.repo.minEnvelope && s.repo.content == Encrypted
  }

  lemma EncryptedThenRestored(c: Config, s: Store)
    requires LostNote(s)
    ensures Undercut(RestoreNext(Plain(), c, CompleteContentNext(BeginContentNext(s)), Recover(Id(), 2, "n")), Id())
  {
    var s2, q := CompleteContentNext(BeginContentNext(s)), Recover(Id(), 2, "n");
    NoteComesBack(s2);
    RestoreMayUndercut(Plain(), s2, q);
    RestoredHead(c, s2, q, RestoreVerdict(Plain(), s2, q).head);
  }

  /** Upload, delete, encrypt the vault, restore: the restored object is below the envelope floor. */
  lemma RestoreUndercuts(c: Config)
    requires !c.historyEnabled && c.tombstoneDays == 0
    ensures Undercut(Run(Plain(), c, EmptyStore(""),
              Deleted() + [BeginContent] + [CompleteContent] + [RestoreObject(Recover(Id(), 2, "n"))]), Id())
  {
    OneDeletion(c);
    EncryptedThenRestored(c, Run(Plain(), c, EmptyStore(""), Deleted()));
    TwoFurther(Plain(), c, EmptyStore(""), Deleted(), BeginContent, CompleteContent);
    Further(Plain(), c, EmptyStore(""), Deleted() + [BeginContent] + [CompleteContent],
      RestoreObject(Recover(Id(), 2, "n")));
    EncryptRestore(Plain(), c, Run(Plain(), c, EmptyStore(""), Deleted()), Recover(Id(), 2, "n"));
  }

  lemma RestoredHead(c: Config, s: Store, q: RestoreRequest, h: Head)
    requires UniqueAllows(s.heads, h)
    ensures var s' := RestoreApply(c, s, q, Commit(h));
            h.fileId in s'.heads && s'.heads[h.fileId] == h &&
            s'.repo == s.repo.(head := s.repo.head + 1)
  {
  }

  lemma DamagedThenUploaded(c: Config, s: Store)
    requires HasNote(s)
    ensures !AllStored(UploadNext(Plain(), c, DamageNext(s, "k1", []), Put("m", OtherId(), 0, Note(), RenameFails)))
  {
    var s1, q := DamageNext(s, "k1", []), Put("m", OtherId(), 0, Note(), RenameFails);
    IdsAreHex();
    NamesOfOne(s);
    assert s.heads[Id()].blobId == "k1" && s.heads[Id()].pseudonym == "n" && s.heads[Id()].canonicalKey == "n";
    NewNameIsTaken(s1, Note(), [], "m", OtherId(), Note(), RenameFails);
    RepairFails(c, s1);
    UploadKeepsStored(Plain(), c, s1, q);
  }

  lemma RepairFails(c: Config, s: Store)
    requires "k1" in s.blobs && s.blobs["k1"] == [] && Id() in s.heads && s.heads[Id()].blobId == "k1"
    ensures var h := First("m", OtherId(), Note());
            Loses(Plain(), c, s, Put("m", OtherId(), 0, Note(), RenameFails), Commit(h)) && h.blobId == "k1" &&
              Referenced(s.heads, s.versions, "k1")
  {
    var h := First("m", OtherId(), Note());
    assert h.blobId == "k1" && |Note()| == 1;
    assert Damaged(Plain(), c.strictVerify, s.blobs["k1"], Note());
  }

  /** Upload, let the disk spoil the file, upload the same content under another name with the rename
      failing: the first object has lost its content. */
  lemma FailedRepairDangles(c: Config)
    requires !c.historyEnabled
    ensures !AllStored(Run(Plain(), c, EmptyStore(""),
              Uploaded() + [Damage("k1", [])] + [Upload(Put("m", OtherId(), 0, Note(), RenameFails))]))
  {
    OneNote(c);
    DamagedThenUploaded(c, Run(Plain(), c, EmptyStore(""), Uploaded()));
    TwoFurther(Plain(), c, EmptyStore(""), Uploaded(), Damage("k1", []),
      Upload(Put("m", OtherId(), 0, Note(), RenameFails)));
    DamageUpload(Plain(), c, Run(Plain(), c, EmptyStore(""), Uploaded()), "k1", [],
      Put("m", OtherId(), 0, Note(), RenameFails));
  }

  // ---------- a generation of 2^63 ----------

  lemma HeaderOf(rest: bytes)
    requires |rest| == 12
    ensures EnvelopeVersion(LSE3 + rest) == 3 && Generation(LSE3 + rest) == Some(AsInt64(Read64(rest[4..])))
  {
    var body := LSE3 + rest;
    assert body[..4] == LSE3 && body[8..] == rest[4..];
  }

  lemma FourBytes(s: bytes)
    requires 4 <= |s| && s[1] == 0 && s[2] == 0 && s[3] == 0
    ensures Read32(s) == (s[0] as int) * 0x100_0000
  {
  }

  lemma LeadingByte(s: bytes)
    requires |s| == 8 && forall i :: 1 <= i < 8 ==> s[i] == 0
    ensures Read64(s) == (s[0] as int) * 0x100_0000_0000_0000
  {
    var low := s[4..];
    assert low[0] == s[4] && low[1] == s[5] && low[2] == s[6] && low[3] == s[7];
    FourBytes(low);
    FourBytes(s);
  }

  /** An encrypted content of generation 0, and one of generation 2^63, which reads as negative. */
  ghost predicate EarlyAndHuge(early: bytes, huge: bytes) {
    EnvelopeVersion(early) == 3 && Generation(early) == Some(0) && EnvelopeVersion(huge) == 3 &&
      Generation(huge) == Some(-0x8000_0000_0000_0000)
  }

  function Numbered(o: Oracle, early: bytes): seq<Step> { [Upload(PutTo(o, "n", Id(), 0, early, NoFault))] }

  /** The vault with one encrypted note of generation 0, and its version. */
  ghost predicate HasEarly(s: Store) {
    Id() in s.heads && s.heads == map[Id() := s.heads[Id()]] && IsEarly(s.heads[Id()]) &&
    (Id(), 1) in s.versions && s.versions[(Id(), 1)].contentGeneration == 0 && s.repo == EmptyStore("").repo.(head := 1)
  }

  predicate IsEarly(h: Head) {
    h.fileId == Id() && h.revision == 1 && h.contentGeneration == 0 && h.contentHash == "1" && h.pseudonym == "n" &&
      h.canonicalKey == "n"
  }

  lemma OneNumbered(early: bytes, huge: bytes)
    requires EarlyAndHuge(early, huge)
    ensures var o := Telling(early, huge); HasEarly(Run(o, Unlimited(true), EmptyStore(""), Numbered(o, early)))
  {
    var o, c, s := Telling(early, huge), Unlimited(true), EmptyStore("");
    IdsAreHex();
    NewNameIsTaken(s, early, huge, "n", Id(), early, NoFault);
    FirstUpload(o, c, s, PutTo(o, "n", Id(), 0, early, NoFault));
    assert IsEarly(FirstOf(o, "n", Id(), early));
    NumberedIsStored(o, FirstOf(o, "n", Id(), early), PutTo(o, "n", Id(), 0, early, NoFault));
  }

  lemma NumberedIsStored(o: Oracle, h: Head, q: UploadRequest)
    requires IsEarly(h) && q.fault == NoFault
    ensures HasEarly(UploadApply(o, Unlimited(true), EmptyStore(""), q, Commit(h)))
  {
    var s := EmptyStore("").(blobs := StoreBlob(o, false, map[], h.blobId, q.body, NoFault, q.quarantineFull).1);
    NewRecordAfter(o, Unlimited(true), s, h, q);
    UploadTables(o, Unlimited(true), s, h, q);
    UploadPublishes(o, Unlimited(true), s, h, q);
    assert UniqueAllows(map[], h);
  }

  /** The guard looks at the generation only where the object has one already. */
  lemma HugeIsTaken(s: Store, early: bytes, huge: bytes)
    requires EarlyAndHuge(early, huge) && HasEarly(s) && NamesUnique(s.heads)
    ensures var o := Telling(early, huge);
            var verdict := UploadVerdict(o, s, PutTo(o, "n", "", 1, huge, NoFault));
            verdict.Commit? && verdict.head.fileId == Id() && verdict.head.contentGeneration < 0 &&
              UniqueAllows(s.heads, verdict.head)
  {
    NamedIs(s.heads, "n");
    assert early != huge;
  }

  lemma HugeFallsBehind(s: Store, early: bytes, huge: bytes)
    requires EarlyAndHuge(early, huge) && Sound(s) && HistoryFits(s) && HasEarly(s)
    ensures var o := Telling(early, huge);
            var s' := UploadNext(o, Unlimited(true), s, PutTo(o, "n", "", 1, huge, NoFault));
            Id() in s'.heads && !GenerationMonotonic(s', Id())
  {
    var o, c := Telling(early, huge), Unlimited(true);
    var q := PutTo(o, "n", "", 1, huge, NoFault);
    HugeIsTaken(s, early, huge);
    var h := UploadVerdict(o, s, q).head;
    assert Outlives(o, c, s, h, q.now, (Id(), 1));
    assert FallsBehind(o, c, s, h, q.now);
    TakenIsCommitted(o, c, s, q, UploadVerdict(o, s, q));
    UploadGenerationCheck(o, c, s, q);
  }

  lemma TakenIsCommitted(o: Oracle, c: Config, s: Store, q: UploadRequest, verdict: Verdict)
    requires verdict.Commit? && UniqueAllows(s.heads, verdict.head) && q.fault == NoFault
    ensures UploadApply(o, c, s, q, verdict).repo.head == s.repo.head + 1
  {
    var blobs := StoreBlob(o, c.strictVerify, s.blobs, verdict.head.blobId, q.body, q.fault, q.quarantineFull).1;
    UploadPublishes(o, c, s.(blobs := blobs), verdict.head, q);
  }

  lemma HugeAfterEarly(early: bytes, huge: bytes)
    requires EarlyAndHuge(early, huge)
    ensures var o := Telling(early, huge);
            var s := Run(o, Unlimited(true), EmptyStore(""),
              Numbered(o, early) + [Upload(PutTo(o, "n", "", 1, huge, NoFault))]);
            Id() in s.heads && !GenerationMonotonic(s, Id())
  {
    var o, c, s := Telling(early, huge), Unlimited(true), EmptyStore("");
    EmptyIsSound("");
    OneNumbered(early, huge);
    RunKeepsSound(o, c, s, Numbered(o, early));
    RunKeepsHistory(o, c, s, Numbered(o, early));
    HugeFallsBehind(Run(o, c, s, Numbered(o, early)), early, huge);
    Further(o, c, s, Numbered(o, early), Upload(PutTo(o, "n", "", 1, huge, NoFault)));
  }

  /** Two uploads to one object, with history: headers of all zeros after the magic, and of all zeros
      but for the first byte of the generation.  The validator's check on generations fails. */
  lemma HugeGenerationFails(zeros: bytes, top: bytes)
    requires |zeros| == 12 && forall i :: 0 <= i < 12 ==> zeros[i] == 0
    requires |top| == 12 && top[4] == 0x80 && forall i :: 0 <= i < 12 && i != 4 ==> top[i] == 0
    ensures var o := Telling(LSE3 + zeros, LSE3 + top);
            var s := Run(o, Unlimited(true), EmptyStore(""),
              Numbered(o, LSE3 + zeros) + [Upload(PutTo(o, "n", "", 1, LSE3 + top, NoFault))]);
            Id() in s.heads && !GenerationMonotonic(s, Id())
  {
    HeaderOf(zeros);
    HeaderOf(top);
    LeadingByte(zeros[4..]);
    LeadingByte(top[4..]);
    HugeAfterEarly(LSE3 + zeros, LSE3 + top);
  }

  // ---------- a deleted note is no note ----------

  /** Notes are kept for ninety days, attachments for thirty. */
  function NotesLonger(): Config { Config(true, false, 90, 0, 30, 0, 0, 0, 0, 0) }

  ghost predicate HasOnlyNote(s: Store) {
    var h := First("n", Id(), Note());
    s.heads == map[Id() := h] && s.versions.Keys == {(Id(), 1)} && s.versions[(Id(), 1)].createdAt == 1 &&
    s.repo == EmptyStore("").repo.(head := 1) && HistoryFits(s) && Sound(s)
  }

  lemma NoteIsKept(c: Config)
    requires c == NotesLonger()
    ensures HasOnlyNote(Run(Plain(), c, EmptyStore(""), Uploaded()))
  {
    var o, s, q := Plain(), EmptyStore(""), Put("n", Id(), 0, Note(), NoFault);
    IdsAreHex();
    NewNameIsTaken(s, Note(), [], "n", Id(), Note(), NoFault);
    FirstUpload(o, c, s, q);
    EmptyIsSound("");
    RunKeepsSound(o, c, s, Uploaded());
    RunKeepsHistory(o, c, s, Uploaded());
    NoteIsRecorded(c, q);
  }

  lemma NoteIsRecorded(c: Config, q: UploadRequest)
    requires c == NotesLonger() && q == Put("n", Id(), 0, Note(), NoFault)
    ensures var h, s' := First("n", Id(), Note()), UploadApply(Plain(), c, EmptyStore(""), q,
              Commit(First("n", Id(), Note())));
            s'.heads == map[Id() := h] && s'.versions.Keys == {(Id(), 1)} && s'.versions[(Id(), 1)].createdAt == 1 &&
            s'.repo == EmptyStore("").repo.(head := 1)
  {
  }

  lemma NoteIsTaken(c: Config, s: Store, q: DeleteRequest)
    requires HasOnlyNote(s) && q == Remove("n", 1)
    ensures var s' := DeleteNext(Plain(), c, s, q); s'.repo.head > s.repo.head
    ensures Id() in s.heads && s.heads[Id()] == First("n", Id(), Note()) && !Plain().isNote(Id())
  {
    NamedIs(s.heads, "n");
    assert Id() in s.heads && s.heads[Id()].pseudonym == "n";
    assert DeleteVerdict(Plain(), s, q) == Commit(First("n", Id(), Note()));
  }

  /** A note, uploaded and deleted: forty days on the policy of notes still keeps its content, and the
      maintenance takes it. */
  lemma DeletedNoteIsForgotten()
    ensures var c, k, now := NotesLonger(), (Id(), 1), 40 * 86400;
            var s := Run(Plain(), c, EmptyStore(""), Deleted());
            k in s.versions && Policies.NotePolicyKeeps(c, s.versions, k, now) &&
            k in ServiceModule.Due(Plain(), c, s, now)
  {
    var c := NotesLonger();
    NoteIsKept(c);
    Further(Plain(), c, EmptyStore(""), Uploaded(), DeleteObject(Remove("n", 1)));
    DeletionOf(Plain(), c, Run(Plain(), c, EmptyStore(""), Uploaded()), Remove("n", 1));
    NoteIsForgotten(c, Run(Plain(), c, EmptyStore(""), Uploaded()));
  }

  lemma DeletionOf(o: Oracle, c: Config, s: Store, q: DeleteRequest)
    ensures Next(o, c, s, DeleteObject(q)) == DeleteNext(o, c, s, q)
  {
  }

  lemma NoteIsForgotten(c: Config, s: Store)
    requires c == NotesLonger() && HasOnlyNote(s)
    ensures var k, now, s' := (Id(), 1), 40 * 86400, DeleteNext(Plain(), c, s, Remove("n", 1));
            k in s'.versions && Policies.NotePolicyKeeps(c, s'.versions, k, now) &&
            k in ServiceModule.Due(Plain(), c, s', now)
  {
    var q, h := Remove("n", 1), First("n", Id(), Note());
    NoteIsTaken(c, s, q);
    Policies.DeletionIsOneMore(Plain(), c, s, q, h);
    Policies.DeletedNoteIsAnAttachment(Plain(), c, s, q, h, 40 * 86400);
  }
}
