/** What becomes of the old history rows in the move to schema 6. */
module HistoryV6 {
  import opened Options
  import opened Tables
  import opened PlanV6
  import opened SchemaV6
  import opened ResumeV6

  /** Random ids are new to the rows and to their history; or none is needed. */
  ghost predicate IdsAtHand(random: seq<string>, files: seq<LegacyFile>, versions: seq<LegacyVersion>) {
    GoodIds(files) || (Fresh(random, files) && forall v :: v in versions ==> v.fileId !in random)
  }

  /** A history row without a usable id whose path no row has. */
  predicate Orphan(files: seq<LegacyFile>, row: LegacyVersion) {
    !IsHex32(row.fileId) && forall f :: f in files ==> f.path != row.path
  }

  /** A history row with a well formed id that no row has. */
  predicate Stray(files: seq<LegacyFile>, row: LegacyVersion) {
    IsHex32(row.fileId) && forall f :: f in files ==> f.fileId != row.fileId
  }

  // ---------- which ids are planned ----------

  ghost predicate PlacedId(p: Placed, id: string) {
    (exists i :: 0 <= i < |p.heads| && p.heads[i].fileId == id) ||
    exists i :: 0 <= i < |p.tombs| && p.tombs[i].fileId == id
  }

  /** Ids seen are ids of objects placed, paths stand for ids seen, and they are paths of rows. */
  ghost predicate Consistent(p: Placed, files: seq<LegacyFile>) {
    (forall id :: id in p.seen ==> PlacedId(p, id)) &&
    forall path :: path in p.idOf ==> p.idOf[path] in p.seen && exists f :: f in files && f.path == path
  }

  /** A row is behind: its own id, if it is one, and its path are known. */
  predicate Tracked(p: Placed, f: LegacyFile) {
    (IsHex32(f.fileId) ==> f.fileId in p.seen) && f.path in p.idOf
  }

  predicate Grows(p: Placed, p': Placed) {
    p.seen <= p'.seen && p.idOf.Keys <= p'.idOf.Keys
  }

  lemma LiveIsTracked(p: Placed, f: LegacyFile, files: seq<LegacyFile>, probe: Probe, random: seq<string>)
    requires Consistent(p, files) && f in files
    ensures var p' := PlaceLive(p, f, probe, random);
            Consistent(p', files) && Tracked(p', f) && Grows(p, p')
  {
    var p' := PlaceLive(p, f, probe, random);
    var id := Assign(p, f.fileId, random).0;
    assert p'.heads[|p.heads|].fileId == id;
    assert forall i :: 0 <= i < |p.heads| ==> p'.heads[i] == p.heads[i];
    forall seen | seen in p'.seen ensures PlacedId(p', seen) {
      if seen != id { assert PlacedId(p, seen); }
    }
  }

  lemma DeletedIsTracked(p: Placed, f: LegacyFile, files: seq<LegacyFile>, versions: seq<LegacyVersion>,
          random: seq<string>)
    requires Consistent(p, files) && f in files
    ensures var p' := PlaceDeleted(p, f, versions, random);
            Consistent(p', files) && Tracked(p', f) && Grows(p, p')
  {
    var p' := PlaceDeleted(p, f, versions, random);
    var id := Assign(p, f.fileId, random).0;
    assert p'.tombs[|p.tombs|].fileId == id;
    assert forall i :: 0 <= i < |p.tombs| ==> p'.tombs[i] == p.tombs[i];
    forall seen | seen in p'.seen ensures PlacedId(p', seen) {
      if seen != id { assert PlacedId(p, seen); }
    }
  }

  lemma {:induction false} LivePassTracks(files: seq<LegacyFile>, n: nat, probe: Probe, random: seq<string>)
    requires n <= |files|
    ensures var p := LivePass(files[..n], probe, random);
            Consistent(p, files) && forall i :: 0 <= i < n && !files[i].deleted ==> Tracked(p, files[i])
  {
    if n > 0 {
      assert files[..n][..n - 1] == files[..n - 1];
      LivePassTracks(files, n - 1, probe, random);
      LiveIsTracked(LivePass(files[..n - 1], probe, random), files[n - 1], files, probe, random);
    }
  }

  lemma {:induction false} DeletedPassTracks(start: Placed, files: seq<LegacyFile>, n: nat,
          versions: seq<LegacyVersion>, random: seq<string>)
    requires n <= |files| && Consistent(start, files)
    ensures var p := DeletedPass(start, files[..n], versions, random);
            Consistent(p, files) && Grows(start, p) &&
            forall i :: 0 <= i < n && files[i].deleted ==> Tracked(p, files[i])
  {
    if n > 0 {
      assert files[..n][..n - 1] == files[..n - 1];
      DeletedPassTracks(start, files, n - 1, versions, random);
      DeletedIsTracked(DeletedPass(start, files[..n - 1], versions, random), files[n - 1], files, versions, random);
    }
  }

  /** Every row is tracked by the plan. */
  lemma PlanTracks(files: seq<LegacyFile>, versions: seq<LegacyVersion>, probe: Probe, random: seq<string>)
    ensures var plan := PlanOf(files, versions, probe, random);
            Consistent(plan.placed, files) && forall f :: f in files ==> Tracked(plan.placed, f)
    ensures var plan := PlanOf(files, versions, probe, random);
            forall id :: PlacedId(plan.placed, id) <==> IsHeadId(plan, id) || IsTombId(plan, id)
  {
    var plan := PlanOf(files, versions, probe, random);
    assert files[..|files|] == files;
    LivePassTracks(files, |files|, probe, random);
    DeletedPassTracks(LivePass(files, probe, random), files, |files|, versions, random);
    assert forall i :: 0 <= i < |plan.tombs| ==> plan.tombs[i].fileId == plan.placed.tombs[i].fileId;
  }

  lemma KeptIdIsARows(files: seq<LegacyFile>, versions: seq<LegacyVersion>, probe: Probe, random: seq<string>,
          id: string)
    requires GoodIds(files)
    requires var plan := PlanOf(files, versions, probe, random); IsHeadId(plan, id) || IsTombId(plan, id)
    ensures IsHex32(id) && exists f :: f in files && f.fileId == id
  {
    var plan := PlanOf(files, versions, probe, random);
    GoodIdsAreKept(files, versions, probe, random);
    LiveAndDeleted(files);
    if i :| 0 <= i < |plan.heads| && plan.heads[i].fileId == id {
      assert Live(files)[i] in files;
    } else {
      var j :| 0 <= j < |plan.tombs| && plan.tombs[j].fileId == id;
      assert Deleted(files)[j] in files;
    }
  }

  /** Planned ids are well formed, and those of rows or random ones. */
  lemma PlannedIdsAre(files: seq<LegacyFile>, versions: seq<LegacyVersion>, probe: Probe, random: seq<string>,
          id: string)
    requires IdsAtHand(random, files, versions)
    requires var plan := PlanOf(files, versions, probe, random); IsHeadId(plan, id) || IsTombId(plan, id)
    ensures IsHex32(id)
    ensures (exists f :: f in files && f.fileId == id) || (forall v :: v in versions ==> v.fileId != id)
  {
    var plan := PlanOf(files, versions, probe, random);
    if GoodIds(files) {
      KeptIdIsARows(files, versions, probe, random, id);
    } else {
      IdsAreDistinct(files, versions, probe, random);
      IdsComeFromRows(files, versions, probe, random);
    }
  }

  // ---------- what becomes of a history row ----------

  /** The object the plan gives a row's history to: none exactly when the row is an orphan, and one
      that is moved exactly when it is not a stray either. */
  lemma OwnerIs(files: seq<LegacyFile>, versions: seq<LegacyVersion>, probe: Probe, random: seq<string>,
          row: LegacyVersion)
    requires IdsAtHand(random, files, versions) && row in versions
    ensures var plan := PlanOf(files, versions, probe, random);
            var id := Owner(plan.placed.idOf, row);
            (id == "" <==> Orphan(files, row)) &&
            (IsHeadId(plan, id) || IsTombId(plan, id) <==> !Orphan(files, row) && !Stray(files, row))
  {
    var plan := PlanOf(files, versions, probe, random);
    var id := Owner(plan.placed.idOf, row);
    PlanTracks(files, versions, probe, random);
    if IsHeadId(plan, id) || IsTombId(plan, id) { PlannedIdsAre(files, versions, probe, random, id); }
    if !IsHex32(row.fileId) && row.path in plan.placed.idOf {
      assert PlacedId(plan.placed, id);
      PlannedIdsAre(files, versions, probe, random, id);
    }
  }

  /** What a finished migration does with each old history row.  The row has a place, the object it
      belongs to and its revision, unless it is counted as an orphan; the place is planned; and it
      is filled in the new table exactly when some row has the history row's id or, for one
      without a usable id, its path.  The others are planned, not counted, and left behind. */
  lemma StrayHistoryIsLeftBehind(d0: Db, d: Db, files: seq<LegacyFile>, versions: seq<LegacyVersion>, probe: Probe,
          random: seq<string>, row: LegacyVersion)
    requires IdsAtHand(random, files, versions) && row in versions &&
             Finished(d0, d, PlanOf(files, versions, probe, random))
    ensures var plan := PlanOf(files, versions, probe, random);
            var id := Owner(plan.placed.idOf, row);
            (id == "" <==> Orphan(files, row)) &&
            (Planned(plan, (id, row.revision)) <==> !Orphan(files, row)) &&
            ((id, row.revision) in d.versions <==> !Orphan(files, row) && !Stray(files, row)) &&
            |plan.versions| + plan.history.orphans + plan.history.conflicts == |versions|
  {
    var plan := PlanOf(files, versions, probe, random);
    OwnerIs(files, versions, probe, random, row);
    HistoryIsConserved(plan.placed.idOf, versions, probe);
    InsertedExactly(d0, d, plan, (Owner(plan.placed.idOf, row), row.revision));
  }

  ghost predicate Planned(plan: Plan, k: VersionKey) {
    exists v :: v in plan.versions && (v.fileId, v.revision) == k
  }

  lemma InsertedExactly(d0: Db, d: Db, plan: Plan, k: VersionKey)
    requires Finished(d0, d, plan)
    ensures k in d.versions <==> Planned(plan, k) && (IsHeadId(plan, k.0) || IsTombId(plan, k.0))
  {
    if k in d.versions { assert WantsVersion(plan, k, d.versions[k]); }
  }

  /** With ids that need no replacing, a planned version is inserted exactly when some row has its id. */
  lemma PlannedIsInsertedExactly(d0: Db, d: Db, files: seq<LegacyFile>, versions: seq<LegacyVersion>, probe: Probe,
          random: seq<string>, v: Version)
    requires GoodIds(files)
    requires var plan := PlanOf(files, versions, probe, random); Finished(d0, d, plan) && v in plan.versions
    ensures (v.fileId, v.revision) in d.versions <==> exists f :: f in files && f.fileId == v.fileId
  {
    var plan := PlanOf(files, versions, probe, random);
    PlanTracks(files, versions, probe, random);
    InsertedExactly(d0, d, plan, (v.fileId, v.revision));
    if IsHeadId(plan, v.fileId) || IsTombId(plan, v.fileId) { KeptIdIsARows(files, versions, probe, random, v.fileId); }
    if f :| f in files && f.fileId == v.fileId { assert PlacedId(plan.placed, v.fileId); }
  }
}
