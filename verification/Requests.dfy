/** What clients and operators ask of the store, and how it may answer. */
module Requests {
  import opened Bytes
  import opened Options
  import opened Tables

  const MIN_PROTOCOL := 6
  const LEASE_SECONDS := 1800

  datatype ClientContext = ClientContext(
    protocol: int, repoEpoch: string, formatEpoch: int, keyEpoch: int, operationId: string)

  /** Where a crash or an I/O error strikes an upload. */
  datatype Fault = NoFault | BeforeRename | RenameFails | AfterRename | BeforeCommit | AfterCommit

  datatype UploadRequest = UploadRequest(
    path: string, baseRevision: int, claimedHash: string, mtime: int, deviceId: string, action: Option<Action>,
    clientFileId: string, metaEnc: string, canonicalHash: string, client: ClientContext, body: bytes,
    now: int, nowMillis: int, freshIds: seq<string>, fault: Fault, quarantineFull: bool)

  datatype DeleteRequest = DeleteRequest(
    path: string, baseRevision: int, deviceId: string, client: ClientContext, now: int)

  datatype RenameRequest = RenameRequest(
    from: string, to: string, baseMetaGeneration: int, metaEnc: string, canonicalHash: string,
    deviceId: string, client: ClientContext, now: int)

  datatype RestoreRequest = RestoreRequest(
    fileId: string, expectedRevision: int, contentGeneration: int, pseudonym: string, metaEnc: string,
    canonicalHash: string, deviceId: string, client: ClientContext, now: int)

  datatype Error =
    | InvalidPath | HashMismatch | UpgradeRequired | FormatEpochMismatch | RepoEpochMismatch | KeyEpochMismatch
    | MigrationLocked | PlaintextRejected | EnvelopeTooOld | MetaRequired | Conflict | DeletedConflict
    | PathCollision | FileIdConflict | NotFound | MetaCas | StateForbids | StaleRevision | TombstonePurged
    | NotOwner | LeaseActive | MigrationMismatch | MigrationIncomplete | ValidationFailed | StorageFailed

  /** A write is refused, already in effect, or to be committed as this head. */
  datatype Verdict = Refuse(error: Error) | InEffect | Commit(head: Head)

  /** The checks every write starts with. */
  function GuardWrite(r: RepoState, c: ClientContext, deviceId: string, name: string): Option<Error> {
    if c.protocol != 0 && c.protocol < MIN_PROTOCOL then Some(UpgradeRequired)
    else if r.formatEpoch > 1 && c.formatEpoch == 0 then Some(UpgradeRequired)
    else if c.formatEpoch != 0 && c.formatEpoch != r.formatEpoch then Some(FormatEpochMismatch)
    else if c.repoEpoch != "" && c.repoEpoch != r.repoEpoch then Some(RepoEpochMismatch)
    else if c.keyEpoch != 0 && r.keyEpoch != 0 && c.keyEpoch != r.keyEpoch then Some(KeyEpochMismatch)
    else if r.meta == MetaMigrating || r.meta == MetaVerifying then
      if r.migration.owner != "" && deviceId != r.migration.owner && !IsHex32(name) then Some(MigrationLocked)
      else if r.meta == MetaVerifying && deviceId != r.migration.owner then Some(MigrationLocked)
      else None
    else None
  }

  predicate ByIdOnly(r: RepoState) {
    r.meta == MetaEncrypted || r.meta == MetaVerifying
  }
}
