/** Why a request is refused: the reason behind each answer, and that without one it is not. */
module Refusals {
  import opened Bytes
  import opened Envelope
  import opened Options
  import opened Tables
  import opened Requests
  import opened Steps
  import opened Effects
  import opened Guards

  /** The live object a name stands for. */
  ghost predicate StandsFor(heads: map<string, Head>, name: string, cur: Option<Head>) {
    (cur.Some? ==> cur.value.fileId in heads && heads[cur.value.fileId] == cur.value && cur.value.pseudonym == name) &&
    (cur.None? ==> forall f :: f in heads ==> heads[f].pseudonym != name)
  }

  lemma NamedStandsFor(s: Store, name: string, cur: Option<Head>)
    requires Sound(s) && StandsFor(s.heads, name, cur)
    ensures Named(s.heads, name) == cur
  {
    NamedIs(s.heads, name);
  }

  /** Another object has the key; none has the empty one. */
  predicate HasKey(heads: map<string, Head>, key: string, but: string) {
    key != "" && exists f :: f in heads && f != but && heads[f].canonicalKey == key
  }

  /** A change of the object was made under the operation id. */
  predicate WasDone(log: seq<Change>, f: string, op: string) {
    op != "" && exists i :: 0 <= i < |log| && log[i].fileId == f && log[i].operationId == op
  }

  /** Objects are addressed by their ids from the verification of the migration on. */
  predicate OnlyIds(r: RepoState) {
    r.meta == MetaVerifying || r.meta == MetaEncrypted
  }

  /** What the guard of every write may have against one. */
  predicate NotWelcome(r: RepoState, c: ClientContext, device: string, name: string, e: Error) {
    match e
    case UpgradeRequired => !Speaks(c) || (c.formatEpoch == 0 && r.formatEpoch > 1)
    case FormatEpochMismatch => c.formatEpoch != 0 && c.formatEpoch != r.formatEpoch
    case RepoEpochMismatch => !SameWorld(r, c)
    case KeyEpochMismatch => !SameKey(r, c)
    case MigrationLocked => !MayWriteNow(r, device, name)
    case _ => false
  }

  lemma GuardAnswers(r: RepoState, c: ClientContext, device: string, name: string)
    ensures var g := GuardWrite(r, c, device, name);
            (g.Some? ==> NotWelcome(r, c, device, name, g.value)) &&
            (g.None? ==> forall e :: !NotWelcome(r, c, device, name, e))
  {
    GuardIsExact(r, c, device, name);
  }

  // ---------- upload ----------

  /** The key a new object is to have. */
  function KeyOf(o: Oracle, hash: string, name: string): string {
    if hash != "" then "h:" + hash else o.canonical(name)
  }

  /** No id can be had: the one asked for is taken, or so are the four drawn. */
  predicate NoIdFor(s: Store, q: UploadRequest) {
    var wanted := if OnlyIds(s.repo) then q.path else q.clientFileId;
    if wanted != "" then wanted in s.ledger
    else forall i :: 0 <= i < |q.freshIds| && i < 4 ==> q.freshIds[i] in s.ledger
  }

  /** The content is of no later generation than the one it is to replace. */
  predicate NotLater(cur: Head, q: UploadRequest) {
    ParseHeader(q.body).Some? && 0 < cur.contentGeneration &&
    ParseHeader(q.body).value.generation <= cur.contentGeneration
  }

  /** The deletion is of the name or of the key. */
  predicate IsBarredBy(t: Tombstone, name: string, key: string) {
    t.lastPseudonym == name || (key != "" && t.canonicalKey == key)
  }

  predicate MalformedReason(o: Oracle, q: UploadRequest, e: Error) {
    match e
    case InvalidPath =>
      !o.validPath(q.path) || (q.clientFileId != "" && !IsHex32(q.clientFileId)) || q.action == Some(Delete)
    case HashMismatch => o.hash(q.body) != q.claimedHash
    case _ => false
  }

  predicate ForbiddenReason(s: Store, cur: Option<Head>, q: UploadRequest, e: Error) {
    var env := EnvelopeVersion(q.body);
    match e
    case PlaintextRejected => s.repo.content != Plaintext && env == 0
    case EnvelopeTooOld => env < s.repo.minEnvelope || (cur.Some? && cur.value.envelope == 3 && env < 3)
    case MetaRequired =>
      OnlyIds(s.repo) &&
      (!IsHex32(q.path) || (cur.None? && (q.metaEnc == "" || q.canonicalHash == "" || q.clientFileId !in {"", q.path})))
    case _ => NotWelcome(s.repo, q.client, q.deviceId, q.path, e)
  }

  predicate NewReason(o: Oracle, s: Store, q: UploadRequest, e: Error) {
    var key := KeyOf(o, q.canonicalHash, q.path);
    match e
    case Conflict => q.baseRevision != 0
    case DeletedConflict => exists f :: f in s.tombs && IsBarredBy(s.tombs[f], q.path, key)
    case PathCollision => HasKey(s.heads, key, "")
    case FileIdConflict => NoIdFor(s, q)
    case _ => false
  }

  predicate OverReason(cur: Head, q: UploadRequest, e: Error) {
    e == Conflict && (q.baseRevision != cur.revision || NotLater(cur, q))
  }

  /** What speaks against an upload: against the request itself, against it in this vault, and against
      taking on the object of its name or making a new one. */
  predicate UploadReason(o: Oracle, s: Store, cur: Option<Head>, q: UploadRequest, e: Error) {
    MalformedReason(o, q, e) || ForbiddenReason(s, cur, q, e) ||
    if cur.Some? then OverReason(cur.value, q, e) else NewReason(o, s, q, e)
  }

  /** The upload would change nothing, or was made before. */
  predicate UploadInEffect(o: Oracle, s: Store, cur: Option<Head>, q: UploadRequest) {
    cur.Some? &&
    (cur.value.contentHash == o.hash(q.body) || WasDone(s.log, cur.value.fileId, q.client.operationId))
  }

  lemma {:induction false} NoneUnused(ledger: map<string, LedgerRow>, random: seq<string>, tries: nat)
    ensures FirstUnused(ledger, random, tries).None? <==>
              forall i :: 0 <= i < |random| && i < tries ==> random[i] in ledger
  {
    if tries > 0 && random != [] {
      NoneUnused(ledger, random[1..], tries - 1);
      assert forall i :: 0 < i < |random| ==> random[i] == random[1..][i - 1];
      if random[0] in ledger && FirstUnused(ledger, random, tries).None? {
        forall i | 0 <= i < |random| && i < tries ensures random[i] in ledger {
          if i > 0 { assert random[i] == random[1..][i - 1]; }
        }
      }
      if forall i :: 0 <= i < |random| && i < tries ==> random[i] in ledger {
        forall i | 0 <= i < |random| - 1 && i < tries - 1 ensures random[1..][i] in ledger {
          assert random[1..][i] == random[i + 1];
        }
      }
    }
  }

  lemma ForbiddenIs(s: Store, cur: Option<Head>, q: UploadRequest)
    ensures var v := UploadForbidden(s, cur, q);
            (v.Some? ==> ForbiddenReason(s, cur, q, v.value)) &&
            (v.None? ==> forall e :: !ForbiddenReason(s, cur, q, e))
  {
    GuardAnswers(s.repo, q.client, q.deviceId, q.path);
  }

  lemma NewIs(o: Oracle, s: Store, q: UploadRequest)
    requires Sound(s)
    ensures var v := UploadNew(o, s, q);
            !v.InEffect? && (v.Refuse? ==> NewReason(o, s, q, v.error)) &&
            (v.Commit? ==> forall e :: !NewReason(o, s, q, e))
  {
    NoneUnused(s.ledger, q.freshIds, 4);
  }

  /** An upload is refused for a reason; it is committed when there is none and it is not in effect; and
      it is answered as in effect when it is, unless it is malformed or forbidden. */
  lemma UploadIsAnswered(o: Oracle, s: Store, cur: Option<Head>, q: UploadRequest)
    requires Sound(s) && StandsFor(s.heads, q.path, cur)
    ensures var v := UploadVerdict(o, s, q); v.Refuse? ==> UploadReason(o, s, cur, q, v.error)
    ensures UploadVerdict(o, s, q).Commit? ==>
              !UploadInEffect(o, s, cur, q) && forall e :: !UploadReason(o, s, cur, q, e)
    ensures UploadVerdict(o, s, q).InEffect? <==>
              UploadInEffect(o, s, cur, q) && forall e :: !MalformedReason(o, q, e) && !ForbiddenReason(s, cur, q, e)
  {
    NamedStandsFor(s, q.path, cur);
    ForbiddenIs(s, cur, q);
    if cur.None? { NewIs(o, s, q); }
    assert UploadMalformed(o, q).Some? ==> MalformedReason(o, q, UploadMalformed(o, q).value);
  }

  // ---------- delete ----------

  predicate DeleteReason(o: Oracle, s: Store, cur: Option<Head>, q: DeleteRequest, e: Error) {
    match e
    case InvalidPath => !o.validPath(q.path)
    case NotFound => cur.None? && forall f :: f in s.tombs ==> s.tombs[f].lastPseudonym != q.path
    case Conflict => cur.Some? && q.baseRevision != cur.value.revision
    case _ => NotWelcome(s.repo, q.client, q.deviceId, q.path, e)
  }

  /** A delete is refused for a reason; it is in effect when nothing but deletions goes by the name. */
  lemma DeleteIsAnswered(o: Oracle, s: Store, cur: Option<Head>, q: DeleteRequest)
    requires Sound(s) && StandsFor(s.heads, q.path, cur)
    ensures var v := DeleteVerdict(o, s, q);
            (v.Refuse? ==> DeleteReason(o, s, cur, q, v.error)) &&
            (!v.Refuse? ==> forall e :: !DeleteReason(o, s, cur, q, e)) &&
            (v.InEffect? ==> cur.None?) && (v.Commit? ==> cur.Some?)
  {
    NamedStandsFor(s, q.path, cur);
    GuardAnswers(s.repo, q.client, q.deviceId, q.path);
  }

  // ---------- rename ----------

  predicate RenameReason(o: Oracle, s: Store, cur: Option<Head>, q: RenameRequest, e: Error) {
    match e
    case InvalidPath => !o.validPath(q.from) || !o.validPath(q.to)
    case StateForbids => s.repo.meta == MetaPlain && q.metaEnc != ""
    case MetaRequired => OnlyIds(s.repo) && (q.from != q.to || q.metaEnc == "" || q.canonicalHash == "")
    case NotFound => cur.None?
    case MetaCas => cur.Some? && cur.value.metaGeneration != q.baseMetaGeneration
    case _ => NotWelcome(s.repo, q.client, q.deviceId, q.from, e)
  }

  /** The name, or the key of it, is another's. */
  predicate NameIsTaken(o: Oracle, s: Store, cur: Head, q: RenameRequest, e: Error) {
    match e
    case Conflict => !OnlyIds(s.repo) && q.from != q.to && exists f :: f in s.heads && s.heads[f].pseudonym == q.to
    case PathCollision => HasKey(s.heads, KeyOf(o, q.canonicalHash, q.to), cur.fileId)
    case _ => false
  }

  lemma RenameIsRefused(o: Oracle, s: Store, cur: Option<Head>, q: RenameRequest)
    requires Sound(s) && StandsFor(s.heads, q.from, cur)
    ensures var v := RenameVerdict(o, s, q);
            v.Refuse? ==>
              RenameReason(o, s, cur, q, v.error) || (cur.Some? && NameIsTaken(o, s, cur.value, q, v.error))
  {
    NamedStandsFor(s, q.from, cur);
    NamedIs(s.heads, q.to);
    GuardAnswers(s.repo, q.client, q.deviceId, q.from);
  }

  /** A rename is refused for a reason; one that was made before is known by its operation id, unless
      the metadata generation it starts from is not the object's any more. */
  lemma RenameIsAnswered(o: Oracle, s: Store, cur: Option<Head>, q: RenameRequest)
    requires Sound(s) && StandsFor(s.heads, q.from, cur)
    ensures var v := RenameVerdict(o, s, q);
            v.Refuse? ==>
              RenameReason(o, s, cur, q, v.error) || (cur.Some? && NameIsTaken(o, s, cur.value, q, v.error))
    ensures RenameVerdict(o, s, q).Commit? ==>
              cur.Some? && forall e :: !RenameReason(o, s, cur, q, e) && !NameIsTaken(o, s, cur.value, q, e)
    ensures RenameVerdict(o, s, q).InEffect? <==>
              cur.Some? && WasDone(s.log, cur.value.fileId, q.client.operationId) &&
              forall e :: !RenameReason(o, s, cur, q, e)
  {
    RenameIsRefused(o, s, cur, q);
    assert Named(s.heads, q.from) == cur by { NamedStandsFor(s, q.from, cur); }
    if RenameVerdict(o, s, q).Commit? { NamedIs(s.heads, q.to); }
    if !RenameVerdict(o, s, q).Refuse? { GuardAnswers(s.repo, q.client, q.deviceId, q.from); }
  }

  // ---------- restore ----------

  predicate RestoreForbidden(o: Oracle, s: Store, q: RestoreRequest, e: Error) {
    match e
    case InvalidPath => !IsHex32(q.fileId) || !o.validPath(q.pseudonym)
    case MetaRequired => OnlyIds(s.repo) && (q.pseudonym != q.fileId || q.metaEnc == "" || q.canonicalHash == "")
    case _ => NotWelcome(s.repo, q.client, q.deviceId, q.pseudonym, e)
  }

  predicate RevivalReason(o: Oracle, s: Store, q: RestoreRequest, t: Tombstone, e: Error) {
    match e
    case StaleRevision => q.expectedRevision != t.deletionRevision
    case DeletedConflict => 0 < t.contentGeneration && q.contentGeneration <= t.contentGeneration
    case PathCollision => HasKey(s.heads, KeyOf(o, q.canonicalHash, q.pseudonym), q.fileId)
    case Conflict => exists g :: g in s.heads && g != q.fileId && s.heads[g].pseudonym == q.pseudonym
    case _ => false
  }

  /** Of an object that is not deleted nothing can be restored. */
  predicate NothingToRestore(s: Store, f: string, e: Error) {
    f !in s.tombs && f !in s.heads && e == if f in s.ledger then TombstonePurged else NotFound
  }

  lemma RevivalIs(o: Oracle, s: Store, q: RestoreRequest, t: Tombstone)
    requires Sound(s) && q.fileId in s.tombs
    ensures var v := RevivalVerdict(o, s, q, t);
            !v.InEffect? && (v.Refuse? ==> RevivalReason(o, s, q, t, v.error)) &&
            (v.Commit? ==> forall e :: !RevivalReason(o, s, q, t, e))
  {
    NamedIs(s.heads, q.pseudonym);
  }

  /** A restore is refused for a reason; it is in effect when it was made before, or its object lives. */
  lemma RestoreIsAnswered(o: Oracle, s: Store, q: RestoreRequest)
    requires Sound(s)
    ensures var v := RestoreVerdict(o, s, q);
            v.Refuse? ==>
              RestoreForbidden(o, s, q, v.error) || NothingToRestore(s, q.fileId, v.error) ||
              (q.fileId in s.tombs && RevivalReason(o, s, q, s.tombs[q.fileId], v.error))
    ensures RestoreVerdict(o, s, q).Commit? ==>
              q.fileId in s.tombs && !WasDone(s.log, q.fileId, q.client.operationId) &&
              forall e :: !RestoreForbidden(o, s, q, e) && !RevivalReason(o, s, q, s.tombs[q.fileId], e)
    ensures RestoreVerdict(o, s, q).InEffect? <==>
              (q.fileId in s.heads || WasDone(s.log, q.fileId, q.client.operationId)) &&
              forall e :: !RestoreForbidden(o, s, q, e)
  {
    GuardAnswers(s.repo, q.client, q.deviceId, q.pseudonym);
    if q.fileId in s.tombs { RevivalIs(o, s, q, s.tombs[q.fileId]); }
  }

  // ---------- the metadata migration ----------

  /** Moves of the migration are made while it runs, by its owner if it has one. */
  predicate NotOurs(r: RepoState, device: string, e: Error) {
    match e
    case StateForbids => r.meta != MetaMigrating
    case NotOwner => r.migration.owner !in {"", device}
    case _ => false
  }

  predicate MoveReason(s: Store, cur: Option<Head>, metaEnc: string, hash: string, device: string, e: Error) {
    match e
    case MetaRequired => metaEnc == "" || !IsHex64(hash)
    case NotFound => cur.None?
    case PlaintextRejected => cur.Some? && cur.value.envelope < 3
    case _ => NotOurs(s.repo, device, e)
  }

  lemma MoveIsAnswered(s: Store, cur: Option<Head>, name: string, metaEnc: string, hash: string, device: string,
          now: int)
    requires Sound(s) && StandsFor(s.heads, name, cur)
    ensures var v := MigrateObjectVerdict(s, name, metaEnc, hash, device, now);
            (v.Refuse? ==> MoveReason(s, cur, metaEnc, hash, device, v.error)) &&
            (!v.Refuse? ==> cur.Some? && forall e :: !MoveReason(s, cur, metaEnc, hash, device, e)) &&
            (v.InEffect? ==> cur.Some? && name == cur.value.fileId && cur.value.encryptedMetadata == metaEnc) &&
            (v.Commit? ==> cur.Some? && (name != cur.value.fileId || cur.value.encryptedMetadata != metaEnc))
  {
    NamedStandsFor(s, name, cur);
  }

  /** An operation of the migration is refused for a reason, and goes on without one. */
  ghost predicate Allows(refusal: Option<Error>, reason: Error -> bool) {
    (refusal.Some? ==> reason(refusal.value)) && (refusal.None? ==> forall e :: !reason(e))
  }

  predicate ConversionReason(s: Store, f: string, hash: string, device: string, e: Error) {
    match e
    case MetaRequired => !IsHex32(f) || !IsHex64(hash)
    case NotFound => f !in s.tombs
    case _ => NotOurs(s.repo, device, e)
  }

  lemma ConversionIsAnswered(s: Store, f: string, hash: string, device: string)
    ensures Allows(MigrateTombstoneVerdict(s, f, hash, device), e => ConversionReason(s, f, hash, device, e))
  {
  }

  predicate BeginReason(r: RepoState, device: string, e: Error) {
    match e
    case StateForbids => r.content != Encrypted || r.meta == MetaEncrypted
    case EnvelopeTooOld => r.minEnvelope < 3
    case MigrationLocked =>
      (r.meta == MetaMigrating || r.meta == MetaVerifying) && r.migration.owner !in {"", device}
    case _ => false
  }

  /** A migration begins from encrypted contents of the third envelope, and is carried on by its owner. */
  lemma BeginIsAnswered(r: RepoState, device: string)
    ensures Allows(BeginVerdict(r, device), e => BeginReason(r, device, e))
  {
  }

  predicate TakeoverReason(r: RepoState, id: string, device: string, now: int, e: Error) {
    match e
    case StateForbids => r.migration.id == ""
    case MigrationMismatch => id != r.migration.id
    case LeaseActive => device != r.migration.owner && now < r.migration.leaseExpiresAt
    case _ => false
  }

  /** A migration is taken over by its id, once the lease of another has run out. */
  lemma TakeoverIsAnswered(r: RepoState, id: string, device: string, now: int)
    ensures Allows(TakeoverVerdict(r, id, device, now), e => TakeoverReason(r, id, device, now, e))
  {
  }

  predicate VerifyReason(s: Store, device: string, e: Error) {
    match e
    case MigrationIncomplete =>
      exists k :: k in s.journal && k.migrationId == s.repo.migration.id && s.journal[k] in {Pending, Failed}
    case _ => NotOurs(s.repo, device, e)
  }

  /** Verification waits for the journal; entering it again is no fault. */
  lemma VerifyIsAnswered(s: Store, device: string)
    ensures if s.repo.meta == MetaVerifying then VerifyVerdict(s, device).None?
            else Allows(VerifyVerdict(s, device), e => VerifyReason(s, device, e))
  {
  }

  /** The object is known by its id alone, in the third envelope and under the present key. */
  predicate IsSwitchable(s: Store, f: string, h: Head) {
    h.pseudonym == f && IsHex32(f) && h.encryptedMetadata != "" && h.envelope >= 3 &&
    (s.repo.keyEpoch <= 0 || h.keyEpoch == s.repo.keyEpoch)
  }

  /** No recorded generation is ahead of the object's. */
  predicate IsAhead(s: Store, f: string, generation: int) {
    (forall k :: k in s.versions && k.0 == f ==> s.versions[k].contentGeneration <= generation) &&
    ((forall k :: k in s.versions ==> k.0 != f) ==> 0 <= generation)
  }

  /** Nothing in the vault names anything any more. */
  predicate MayBeSwitched(s: Store) {
    (forall f :: f in s.heads ==> IsSwitchable(s, f, s.heads[f]) && IsAhead(s, f, s.heads[f].contentGeneration)) &&
    (forall f :: f in s.tombs ==> s.tombs[f].lastPseudonym == f) &&
    (forall k :: k in s.versions ==> k.0 in s.ledger) &&
    (forall i :: 0 <= i < |s.log| && s.repo.migration.cutoff < s.log[i].sequence ==>
      s.log[i].pseudonym == s.log[i].fileId) &&
    s.repo.formatEpoch < s.repo.migration.targetEpoch && 3 <= s.repo.minEnvelope
  }

  predicate CompleteReason(s: Store, id: string, device: string, shares: nat, sentinels: nat, erasure: Erasure,
      e: Error)
  {
    match e
    case StateForbids => s.repo.meta != MetaVerifying
    case MigrationMismatch => id !in {"", s.repo.migration.id}
    case NotOwner => s.repo.migration.owner !in {"", device}
    case ValidationFailed => !MayBeSwitched(s) || shares > 0 || sentinels > 0 || erasure == Residual
    case StorageFailed => erasure == WipeFailed
    case _ => false
  }

  lemma ValidatesIs(s: Store, shares: nat, sentinels: nat)
    requires Sound(s)
    ensures Validates(s, shares, sentinels) <==> MayBeSwitched(s) && shares == 0 && sentinels == 0
  {
    forall f | f in s.heads
      ensures HeadReady(s, f) <==> IsSwitchable(s, f, s.heads[f])
      ensures GenerationMonotonic(s, f) <==> IsAhead(s, f, s.heads[f].contentGeneration)
    {
    }
  }

  /** The switch is made when nothing in the vault, no share and no trace on the disk names anything. */
  lemma CompleteIsAnswered(s: Store, id: string, device: string, shares: nat, sentinels: nat, erasure: Erasure)
    requires Sound(s)
    ensures var verdict := CompleteVerdict(s, id, device, shares, sentinels, erasure);
            if s.repo.meta == MetaEncrypted then verdict.None?
            else Allows(verdict, e => CompleteReason(s, id, device, shares, sentinels, erasure, e))
  {
    ValidatesIs(s, shares, sentinels);
  }
}
