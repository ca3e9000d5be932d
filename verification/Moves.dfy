/** What each move of the two encryption migrations leaves, field by field. */
module Moves {
  import opened Bytes
  import opened Envelope
  import opened Options
  import opened Tables
  import opened Requests
  import opened Steps
  import opened Effects
  import opened Refusals

  // ---------- contents ----------

  /** Every live content is stored, in this envelope or a later one. */
  ghost predicate AllStoredAtLeast(s: Store, version: int) {
    forall f :: f in s.heads ==>
      s.heads[f].blobId in s.blobs && version <= EnvelopeVersion(s.blobs[s.heads[f].blobId])
  }

  function AtLeast(a: int, b: int): int {
    if a < b then b else a
  }

  /** Beginning to encrypt contents begins a new key epoch, and giving it up leaves that. */
  lemma ContentMovesLeave(s: Store)
    ensures BeginContentNext(s).repo == if s.repo.content == Plaintext
              then s.repo.(content := Encrypting, keyEpoch := s.repo.keyEpoch + 1) else s.repo
    ensures AbortContentNext(s).repo == if s.repo.content == Encrypting
              then s.repo.(content := Plaintext) else s.repo
  {
  }

  /** It is completed for contents all of which are encrypted. */
  lemma CompletionLeaves(s: Store)
    ensures CompleteContentNext(s).repo == if s.repo.content == Encrypting && AllStoredAtLeast(s, 1)
              then s.repo.(content := Encrypted, minEnvelope := AtLeast(s.repo.minEnvelope, 1)) else s.repo
  {
    assert AllContentAtLeast(s, 1) <==> AllStoredAtLeast(s, 1);
  }

  /** With the third envelope in all of them no earlier one is taken any more. */
  lemma UpgradeLeaves(s: Store)
    ensures UpgradeEnvelopeNext(s).repo == if s.repo.content == Encrypted && AllStoredAtLeast(s, 3)
              then s.repo.(minEnvelope := AtLeast(s.repo.minEnvelope, 3)) else s.repo
  {
    assert AllContentAtLeast(s, 3) <==> AllStoredAtLeast(s, 3);
  }

  // ---------- names ----------

  /** The object, or the deletion, is still addressed by a name. */
  predicate StillNamed(s: Store, k: JournalKey) {
    match k.kind
    case ObjectEntry => k.id in s.heads && (s.heads[k.id].pseudonym != k.id || s.heads[k.id].encryptedMetadata == "")
    case TombstoneEntry => k.id in s.tombs && s.tombs[k.id].lastPseudonym != k.id
    case BlobEntry => false
  }

  /** A migration begins in the hands of the device, for half an hour, against all that was published so
      far, and for the next format; carried on, it keeps all of this but the time. */
  lemma BeginLeaves(s: Store, device: string, newId: string, now: int, missed: set<JournalKey>)
    ensures var s', m := BeginNext(s, device, newId, now, missed), s.repo.migration;
            if (forall e :: !BeginReason(s.repo, device, e))
            then s'.repo == s.repo.(meta := MetaMigrating, migration := if s.repo.meta == MetaPlain
                   then Migration(newId, device, now + 1800, s.repo.head, s.repo.formatEpoch + 1, s.repo.keyEpoch)
                   else m.(leaseExpiresAt := now + 1800)) && s' == s.(repo := s'.repo, journal := s'.journal)
            else s' == s
  {
    BeginIsAnswered(s.repo, device);
    assert BeginVerdict(s.repo, device).Some? ==> BeginReason(s.repo, device, BeginVerdict(s.repo, device).value);
  }

  /** Begun, it has an entry for all that is still named, but for what a crash left out; entries that
      were there stay as they are. */
  lemma BeginEnters(s: Store, device: string, newId: string, now: int, missed: set<JournalKey>, k: JournalKey)
    requires BeginVerdict(s.repo, device).None?
    ensures var s' := BeginNext(s, device, newId, now, missed);
            (k in s.journal ==> k in s'.journal && s'.journal[k] == s.journal[k]) &&
            (k !in s.journal ==>
              (k in s'.journal <==> k.migrationId == s'.repo.migration.id && StillNamed(s, k) && k !in missed)) &&
            (k !in s.journal && k in s'.journal ==> s'.journal[k] == Pending)
  {
    var s1 := s.(repo := BegunRepo(s.repo, device, newId, now));
    EntryIs(s1, k);
    assert StillNamed(s1, k) == StillNamed(s, k);
  }

  lemma EntryIs(s: Store, k: JournalKey)
    ensures k in Todo(s) <==> k.migrationId == s.repo.migration.id && StillNamed(s, k)
  {
  }

  /** A lease is renewed by its owner, or by anyone when nobody has it; it is taken over as its record
      allows, and given back when it has run out. */
  lemma LeaseMovesLeave(r: RepoState, id: string, device: string, now: int)
    ensures Renewed(r, device, now) == if r.migration.id != "" && r.migration.owner in {"", device}
              then r.(migration := r.migration.(leaseExpiresAt := now + 1800)) else r
    ensures TakenOver(r, id, device, now) ==
              if r.migration.id != "" && id == r.migration.id && r.migration.owner != device &&
                 r.migration.leaseExpiresAt <= now
              then r.(migration := r.migration.(owner := device, leaseExpiresAt := now + 1800)) else r
    ensures Released(r, now) == if r.migration.owner != "" && r.migration.leaseExpiresAt <= now
              then r.(migration := r.migration.(owner := "", leaseExpiresAt := 0)) else r
  {
  }

  /** A deletion that is moved keeps all but its name and its key; its entry, if there is one, is done. */
  lemma ConversionLeaves(s: Store, f: string, hash: string, device: string)
    requires MigrateTombstoneVerdict(s, f, hash, device).None?
    ensures var s', k := MigrateTombstoneNext(s, f, hash, device), JournalKey(s.repo.migration.id, f, TombstoneEntry);
            f in s.tombs && var t := s.tombs[f].(lastPseudonym := f, canonicalKey := "h:" + hash);
            s' == s.(tombs := s.tombs[f := t], journal := s'.journal) &&
            s'.journal == if k in s.journal then s.journal[k := Done] else s.journal
  {
  }

  /** A committed move of an object, and one in effect, are entered as done too. */
  lemma MoveIsEntered(s: Store, cur: Option<Head>, now: int, verdict: Verdict)
    requires verdict.Commit? ==> UniqueAllows(s.heads, verdict.head)
    ensures var s' := MigrateObjectApply(s, cur, now, verdict);
            var f := match verdict case Commit(h) => Some(h.fileId)
              case InEffect => if cur.Some? then Some(cur.value.fileId) else None
              case Refuse(_) => None;
            if f.None? then s'.journal == s.journal
            else
              var k := JournalKey(s.repo.migration.id, f.value, ObjectEntry);
              s'.journal == if k in s.journal then s.journal[k := Done] else s.journal
  {
  }

  /** Verification changes nothing but the state. */
  lemma VerificationLeaves(s: Store, device: string)
    requires VerifyVerdict(s, device).None?
    ensures VerifyNext(s, device) == s.(repo := s.repo.(meta := MetaVerifying))
  {
  }

  /** The switch ends the migration: its record and its entries go, the log of names is emptied, and
      clients of any earlier format or cursor are to start over; no object, deletion, version or content
      changes. */
  lemma SwitchLeaves(s: Store, id: string, device: string, shares: nat, sentinels: nat, erasure: Erasure)
    ensures var s', r, m := CompleteNext(s, id, device, shares, sentinels, erasure), s.repo, s.repo.migration;
            if r.meta != MetaEncrypted && CompleteVerdict(s, id, device, shares, sentinels, erasure).None?
            then s' == s.(log := [], journal := s'.journal, repo := r.(meta := MetaEncrypted,
                   formatEpoch := AtLeast(r.formatEpoch, m.targetEpoch), minRetained := AtLeast(r.minRetained, r.head),
                   migration := Migration("", "", 0, 0, 0, 0))) &&
                 forall k :: k in s'.journal <==> k in s.journal && k.migrationId != m.id
            else s' == s
  {
  }

  // ---------- keys, worlds and devices ----------

  /** A new key, and a new world. */
  lemma EpochsLeave(s: Store, world: string)
    ensures AfterOther(s, RotateKey) == s.(repo := s.repo.(keyEpoch := s.repo.keyEpoch + 1))
    ensures AfterOther(s, RotateRepo(world)) == s.(repo := s.repo.(repoEpoch := world))
  {
  }

  /** A device that is enrolled, and one that is revoked; either keeps what it has confirmed. */
  lemma DevicesLeave(s: Store, device: string)
    ensures AfterOther(s, AddDevice(device)).devices ==
              if device in s.devices then s.devices else s.devices[device := Device(0, false)]
    ensures AfterOther(s, RevokeDevice(device)).devices == if device in s.devices
              then s.devices[device := Device(s.devices[device].acked, true)] else s.devices
  {
  }

  /** A collection takes exactly those of the given files that nothing refers to, and the disk may spoil
      a file that is there. */
  lemma FilesLeave(s: Store, blobs: set<string>, blob: string, content: bytes)
    ensures var s' := CollectNext(s, blobs);
            s' == s.(blobs := s'.blobs) &&
            (forall b :: b in s'.blobs ==> b in s.blobs && s'.blobs[b] == s.blobs[b]) &&
            forall b :: b in s.blobs && b !in s'.blobs <==>
              b in s.blobs && b in blobs && (forall f :: f in s.heads ==> s.heads[f].blobId != b) &&
              forall k :: k in s.versions ==> s.versions[k].blobId != b
    ensures DamageNext(s, blob, content).blobs == if blob in s.blobs then s.blobs[blob := content] else s.blobs
  {
  }
}
