/**
 The rows of the object store and one value holding all of its tables.  Every table is keyed
 by file id; a pseudonym is only the name a client addresses an object by.
 */
module Tables {
  import opened Bytes
  import opened Options

  /** What the model does not look into: the content hash, the keyed blob name, path
      normalisation, the path syntax check and the note-or-attachment test. */
  datatype Oracle = Oracle(
    hash: bytes -> string,
    blobName: string -> string,
    canonical: string -> string,
    validPath: string -> bool,
    isNote: string -> bool)

  datatype Config = Config(
    historyEnabled: bool, strictVerify: bool,
    noteDays: int, noteMax: int, attachmentDays: int, attachmentMax: int, historyMaxBytes: int,
    changesDays: int, changesMax: int, tombstoneDays: int)

  datatype Head = Head(
    fileId: string, revision: int, contentGeneration: int, blobId: string, contentHash: string,
    size: int, mtime: int, metaGeneration: int, pseudonym: string, encryptedMetadata: string,
    canonicalKey: string, keyEpoch: int, envelope: int, createdAt: int, updatedAt: int)

  datatype Tombstone = Tombstone(
    fileId: string, lastPseudonym: string, canonicalKey: string, deletionRevision: int,
    contentGeneration: int, metaGeneration: int, keyEpoch: int, priorContentHash: string,
    deletedAt: int, deletionSequence: int, retainUntil: int, needsReview: bool)

  datatype LedgerRow = LedgerRow(live: bool, createdAt: int, deletedAt: int)

  datatype Action = Upsert | Merge | Delete | Restore

  datatype Version = Version(
    fileId: string, revision: int, contentGeneration: int, blobId: string, contentHash: string,
    size: int, mtime: int, action: Action, deviceId: string, keyEpoch: int, operationId: string, createdAt: int)

  /** Versions are unique by object and revision. */
  type VersionKey = (string, int)

  datatype Change = Change(
    sequence: int, fileId: string, action: Action, revision: int, contentGeneration: int,
    metaGeneration: int, pseudonym: string, contentHash: string, operationId: string, createdAt: int)

  datatype ContentState = Plaintext | Encrypting | Encrypted
  datatype MetaState = MetaPlain | MetaMigrating | MetaVerifying | MetaEncrypted

  datatype Migration = Migration(
    id: string, owner: string, leaseExpiresAt: int, cutoff: int, targetEpoch: int, keyEpoch: int)

  const NO_MIGRATION := Migration("", "", 0, 0, 0, 0)

  datatype RepoState = RepoState(
    repoEpoch: string, head: int, minRetained: int, content: ContentState, keyEpoch: int,
    meta: MetaState, formatEpoch: int, minEnvelope: int, migration: Migration)

  datatype JournalKind = ObjectEntry | TombstoneEntry | BlobEntry
  datatype Stage = Pending | Done | Failed | Skipped
  datatype JournalKey = JournalKey(migrationId: string, id: string, kind: JournalKind)

  datatype Device = Device(acked: nat, revoked: bool)

  datatype Store = Store(
    heads: map<string, Head>,
    tombs: map<string, Tombstone>,
    ledger: map<string, LedgerRow>,
    versions: map<VersionKey, Version>,
    log: seq<Change>,
    repo: RepoState,
    journal: map<JournalKey, Stage>,
    devices: map<string, Device>,
    blobs: map<string, bytes>)

  /** A fresh vault. */
  function EmptyStore(repoEpoch: string): Store {
    Store(map[], map[], map[], map[], [],
          RepoState(repoEpoch, 0, 0, Plaintext, 0, MetaPlain, 1, 0, NO_MIGRATION), map[], map[], map[])
  }

  predicate IsHex(s: string) {
    forall i :: 0 <= i < |s| ==> '0' <= s[i] <= '9' || 'a' <= s[i] <= 'f'
  }

  predicate IsHex32(s: string) {
    |s| == 32 && IsHex(s)
  }

  predicate IsHex64(s: string) {
    |s| == 64 && IsHex(s)
  }

  /** Ids and keyed hashes are written in so many small hexadecimal digits. */
  lemma HexIsExact(s: string)
    ensures IsHex32(s) <==> |s| == 32 && forall i :: 0 <= i < |s| ==> s[i] in "0123456789abcdef"
    ensures IsHex64(s) <==> |s| == 64 && forall i :: 0 <= i < |s| ==> s[i] in "0123456789abcdef"
  {
    forall i | 0 <= i < |s|
      ensures '0' <= s[i] <= '9' || 'a' <= s[i] <= 'f' <==> s[i] in "0123456789abcdef"
    {
      DigitIsExact(s[i]);
    }
  }

  lemma DigitIsExact(c: char)
    ensures '0' <= c <= '9' || 'a' <= c <= 'f' <==> c in "0123456789abcdef"
  {
    var digits := "0123456789abcdef";
    if '0' <= c <= '9' { assert digits[c as int - '0' as int] == c; }
    if 'a' <= c <= 'f' { assert digits[c as int - 'a' as int + 10] == c; }
  }

  // ---------- queries ----------

  /** The live object addressed by a name. */
  ghost function Named(heads: map<string, Head>, name: string): Option<Head> {
    if f :| f in heads && heads[f].pseudonym == name then Some(heads[f]) else None
  }

  /** Another live object holding a canonical key; the empty key collides with nothing. */
  predicate Collides(heads: map<string, Head>, key: string, self: string) {
    key != "" && exists f :: f in heads && f != self && heads[f].canonicalKey == key
  }

  /** The two unique indexes on heads: what an insert or update of `h` must not violate. */
  predicate UniqueAllows(heads: map<string, Head>, h: Head) {
    !Collides(heads, h.canonicalKey, h.fileId) &&
    forall f :: f in heads && f != h.fileId ==> heads[f].pseudonym != h.pseudonym
  }

  /** A deletion record that bars a name: by the name itself, or by its canonical key. */
  predicate Bars(t: Tombstone, name: string, key: string) {
    t.lastPseudonym == name || (key != "" && t.canonicalKey == key)
  }

  predicate Barred(tombs: map<string, Tombstone>, name: string, key: string) {
    exists f :: f in tombs && Bars(tombs[f], name, key)
  }

  predicate Logged(log: seq<Change>, fileId: string, op: string) {
    op != "" && exists i :: 0 <= i < |log| && log[i].fileId == fileId && log[i].operationId == op
  }

  predicate Referenced(heads: map<string, Head>, versions: map<VersionKey, Version>, blob: string) {
    (exists f :: f in heads && heads[f].blobId == blob) ||
    exists k :: k in versions && versions[k].blobId == blob
  }

  /** The newest version of an object that has a content. */
  ghost predicate IsPrior(versions: map<VersionKey, Version>, k: VersionKey) {
    k in versions && versions[k].action != Delete && versions[k].contentHash != "" &&
    forall j :: j in versions && j.0 == k.0 && versions[j].action != Delete && versions[j].contentHash != "" ==>
      j.1 <= k.1
  }

  ghost function PriorContentHash(versions: map<VersionKey, Version>, fileId: string): string {
    if k :| IsPrior(versions, k) && k.0 == fileId then versions[k].contentHash else ""
  }

  /** The versions of an object newer than a given one. */
  function Newer(versions: map<VersionKey, Version>, k: VersionKey): set<VersionKey> {
    set j | j in versions && j.0 == k.0 && j.1 > k.1
  }

  /** The versions retention gives up for one object.  The newest always stays. */
  function Expired(versions: map<VersionKey, Version>, fileId: string, now: int, days: int, max: int): set<VersionKey> {
    set k | k in versions && k.0 == fileId && Newer(versions, k) != {} &&
            ((max > 0 && |Newer(versions, k)| >= max) ||
             (days > 0 && now - days * 86400 > 0 && versions[k].createdAt < now - days * 86400))
  }

  /** Retention of an object: days and count.  Zero means unlimited, so when the server can no
      longer see the name it takes the longer of the two policies. */
  function Longer(a: int, b: int): (r: int)
    ensures r == 0 <==> a == 0 || b == 0
    ensures r != 0 ==> r >= a && r >= b && (r == a || r == b)
  {
    if a == 0 || b == 0 then 0 else if a > b then a else b
  }

  function RetentionFor(o: Oracle, c: Config, meta: MetaState, name: string): (int, int) {
    if meta == MetaEncrypted || meta == MetaVerifying then
      (Longer(c.noteDays, c.attachmentDays), Longer(c.noteMax, c.attachmentMax))
    else if o.isNote(name) then (c.noteDays, c.noteMax)
    else (c.attachmentDays, c.attachmentMax)
  }
}
