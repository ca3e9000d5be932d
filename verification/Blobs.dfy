/**
 The blob files: immutable contents, each under the name the database knows it by, and a
 quarantine where copies found damaged are kept instead of deleted.
 */
module Blobs {
  import opened Bytes
  import opened Options
  import opened Tables
  import opened Requests
  import opened Steps

  /** A blob can be quarantined this many times before the slots run out. */
  const SLOTS: nat := 66

  datatype CommitResult = Deduped | Stored | Repaired(quarantined: bool) | NotStored

  class BlobStore {
    const o: Oracle
    var files: map<string, bytes>
    var quarantine: map<(string, nat), bytes>

    constructor (o: Oracle)
      ensures this.o == o && files == map[] && quarantine == map[]
    {
      this.o := o;
      files, quarantine := map[], map[];
    }

    /** Every quarantine slot of this blob is taken. */
    ghost predicate QuarantineFull(blob: string)
      reads this
    {
      forall i :: 0 <= i < 66 ==> (blob, i) in quarantine
    }

    /** Whether a stored copy is what the hash on record says: it passes exactly if it would pass for
        any upload of the recorded content. */
    method VerifyContent(blob: string, contentHash: string) returns (r: Option<bool>)
      ensures r.None? <==> blob !in files
      ensures r.Some? ==> r.value == (o.hash(files[blob]) == contentHash)
      ensures r.Some? ==> forall body :: o.hash(body) == contentHash && |body| == |files[blob]| ==>
                r.value == !Damaged(o, true, files[blob], body)
    {
      if blob !in files { return None; }
      return Some(o.hash(files[blob]) == contentHash);
    }

    /** Move a damaged copy aside, into its first free slot.  Nothing that was there before is
        overwritten. */
    method Quarantine(blob: string) returns (ok: bool)
      requires blob in files
      modifies this
      ensures ok == !old(QuarantineFull(blob))
      ensures !ok ==> files == old(files) && quarantine == old(quarantine)
      ensures ok ==> files == old(files) - {blob}
      ensures ok ==>
                exists i :: 0 <= i < SLOTS && (blob, i) !in old(quarantine) &&
                  quarantine == old(quarantine)[(blob, i) := old(files)[blob]]
    {
      var i := 0;
      while i < SLOTS && (blob, i) in quarantine
        invariant 0 <= i <= SLOTS && forall j :: 0 <= j < i ==> (blob, j) in quarantine
      {
        i := i + 1;
      }
      if i == SLOTS { return false; }
      quarantine := quarantine[(blob, i) := files[blob]];
      files := files - {blob};
      return true;
    }

    /** Put verified bytes under a blob name.  A stored copy that passes is kept and the upload's
        copy dropped; one that does not is set aside first.  Failures strike where `fault` says. */
    method CommitAs(body: bytes, blob: string, strict: bool, fault: Fault) returns (r: CommitResult)
      modifies this
      ensures (r != NotStored, files) == StoreBlob(o, strict, old(files), blob, body, fault, old(QuarantineFull(blob)))
      ensures r == Deduped ==> files == old(files)
      ensures old(quarantine).Keys <= quarantine.Keys && forall k :: k in old(quarantine) ==>
              quarantine[k] == old(quarantine)[k]
      ensures forall b :: b in old(files) && (b !in files || files[b] != old(files)[b]) ==>
                b == blob && Damaged(o, strict, old(files)[b], body) &&
                (old(QuarantineFull(b)) || exists i :: (b, i) in quarantine && quarantine[(b, i)] == old(files)[b])
    {
      var repaired, quarantined := false, false;
      assert blob !in files ==> files - {blob} == files;
      assert (files - {blob}) - {blob} == files - {blob} && (files - {blob})[blob := body] == files[blob := body];
      if blob in files {
        var damaged := |files[blob]| != |body|;
        if !damaged && strict {
          var ok := VerifyContent(blob, o.hash(body));
          damaged := ok != Some(true);
        }
        if !damaged { return Deduped; }
        quarantined := Quarantine(blob);
        repaired := true;
      }
      if fault == BeforeRename { return NotStored; }
      if fault == RenameFails {
        files := files - {blob};
        return NotStored;
      }
      files := files[blob := body];
      if fault == AfterRename { return NotStored; }
      return if repaired then Repaired(quarantined) else Stored;
    }

    method Remove(blob: string)
      modifies this`files
      ensures files == old(files) - {blob}
    {
      files := files - {blob};
    }
  }

  /** The stored copy passes for these bytes: it is as long, and where contents are checked its hash is
      the same. */
  predicate IsGoodCopy(o: Oracle, strict: bool, stored: bytes, body: bytes) {
    |stored| == |body| && (strict ==> o.hash(stored) == o.hash(body))
  }

  /** A good copy is kept.  Else the bytes are stored, unless something fails on the way; and then the
      bad copy is gone, but for a failure before the rename with no slot left to move it to, and one
      after the rename, when the bytes are there. */
  lemma StoringLeaves(o: Oracle, strict: bool, blobs: map<string, bytes>, blob: string, body: bytes, fault: Fault,
          quarantineFull: bool)
    ensures var (ok, after) := StoreBlob(o, strict, blobs, blob, body, fault, quarantineFull);
            if blob in blobs && IsGoodCopy(o, strict, blobs[blob], body) then ok && after == blobs
            else
              (ok <==> fault !in {BeforeRename, RenameFails, AfterRename}) &&
              after == if fault == RenameFails || (fault == BeforeRename && !quarantineFull) then blobs - {blob}
                else if fault == BeforeRename then blobs else blobs[blob := body]
  {
  }
}
