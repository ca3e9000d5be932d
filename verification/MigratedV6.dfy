/** A repository that came from schema 5 is one like any other: what is proved of all runs holds of
    its runs too. */
module MigratedV6 {
  import opened Options
  import opened Tables
  import opened Requests
  import opened Steps
  import opened Effects
  import opened Runs
  import opened PlanV6
  import opened SchemaV6

  /** The store opened on a migrated database.  The change log starts empty. */
  ghost predicate Opens(d: Db, s: Store) {
    s.heads == d.heads && s.tombs == d.tombs && s.ledger == d.ledger && s.versions == d.versions && s.log == [] &&
    s.repo.head == d.schema.head && s.repo.minRetained == d.schema.minRetained
  }

  lemma MigratedLifeCycle(plan: Plan, s: Store)
    requires DistinctIds(plan) && HeadsFit(plan, s.heads) && TombsFitIn(plan, s.tombs) && LedgerFits(plan, s.ledger)
    requires HeadsAll(plan, s.heads) && LedgerAll(plan, s.ledger)
    ensures LifeCycle(s)
  {
    forall f | f in s.heads ensures f in s.ledger && s.ledger[f].live { HeadRowIsLive(plan, s.ledger, s.heads[f]); }
    forall f | f in s.tombs ensures f in s.ledger && !s.ledger[f].live { TombRowIsDeleted(plan, s.ledger, s.tombs[f]); }
    forall f | f in s.ledger && s.ledger[f].live ensures f in s.heads { assert WantsRow(plan, f, s.ledger[f]); }
  }

  lemma HeadRowIsLive(plan: Plan, ledger: map<string, LedgerRow>, h: Head)
    requires DistinctIds(plan) && LedgerFits(plan, ledger) && LedgerAll(plan, ledger) && WantsHead(plan, h)
    ensures h.fileId in ledger && ledger[h.fileId].live
  {
    assert IsHeadId(plan, h.fileId);
    assert WantsRow(plan, h.fileId, ledger[h.fileId]);
  }

  lemma TombRowIsDeleted(plan: Plan, ledger: map<string, LedgerRow>, t: Tombstone)
    requires DistinctIds(plan) && LedgerFits(plan, ledger) && LedgerAll(plan, ledger) && WantsTomb(plan, t)
    ensures t.fileId in ledger && !ledger[t.fileId].live
  {
    assert IsTombId(plan, t.fileId);
    assert WantsRow(plan, t.fileId, ledger[t.fileId]);
  }

  lemma MigratedNames(plan: Plan, heads: map<string, Head>)
    requires Orderly(plan) && HeadsFit(plan, heads)
    ensures NamesUnique(heads)
  {
    forall f, g | f in heads && g in heads
      ensures heads[f].pseudonym == heads[g].pseudonym ==> f == g
      ensures heads[f].canonicalKey != "" && heads[f].canonicalKey == heads[g].canonicalKey ==> f == g
    {
      assert WantsHead(plan, heads[f]) && WantsHead(plan, heads[g]);
      var i :| 0 <= i < |plan.heads| && plan.heads[i] == heads[f];
      var j :| 0 <= j < |plan.heads| && plan.heads[j] == heads[g];
    }
  }

  /** No planned version is of a later revision than its object. */
  ghost predicate HistoryNotAhead(plan: Plan) {
    (forall v, i :: v in plan.versions && 0 <= i < |plan.heads| && plan.heads[i].fileId == v.fileId ==>
      v.revision <= plan.heads[i].revision) &&
    forall v, i :: v in plan.versions && 0 <= i < |plan.tombs| && plan.tombs[i].fileId == v.fileId ==>
      v.revision <= plan.tombs[i].deletionRevision
  }

  lemma ReachedIsPlanned(plan: Plan, s: Store)
    requires DistinctIds(plan) && HeadsFit(plan, s.heads) && TombsFitIn(plan, s.tombs) && HeadsAll(plan, s.heads) &&
             TombsAll(plan, s.tombs)
    ensures forall i :: 0 <= i < |plan.heads| ==> Reached(s, plan.heads[i].fileId) == Some(plan.heads[i].revision)
    ensures forall i :: 0 <= i < |plan.tombs| ==>
            Reached(s, plan.tombs[i].fileId) == Some(plan.tombs[i].deletionRevision)
  {
    forall i | 0 <= i < |plan.heads| ensures Reached(s, plan.heads[i].fileId) == Some(plan.heads[i].revision) {
      assert WantsHead(plan, s.heads[plan.heads[i].fileId]);
    }
    forall i | 0 <= i < |plan.tombs| ensures Reached(s, plan.tombs[i].fileId) == Some(plan.tombs[i].deletionRevision) {
      var f := plan.tombs[i].fileId;
      assert WantsTomb(plan, s.tombs[f]);
      assert f in s.heads ==> WantsHead(plan, s.heads[f]);
    }
  }

  lemma MigratedHistory(plan: Plan, s: Store)
    requires DistinctIds(plan) && VersionsFit(plan, s.versions) && VersionsAll(plan, s.versions) &&
             LedgerAll(plan, s.ledger)
    requires forall i :: 0 <= i < |plan.heads| ==> Reached(s, plan.heads[i].fileId) == Some(plan.heads[i].revision)
    requires forall i :: 0 <= i < |plan.tombs| ==>
             Reached(s, plan.tombs[i].fileId) == Some(plan.tombs[i].deletionRevision)
    ensures HistoryFits(s) <==> HistoryNotAhead(plan)
  {
    if HistoryNotAhead(plan) {
      forall k | k in s.versions ensures k.0 in s.ledger && (Reached(s, k.0).Some? ==> k.1 <= Reached(s, k.0).value) {
        assert WantsVersion(plan, k, s.versions[k]);
      }
    }
    if HistoryFits(s) {
      forall v, i | v in plan.versions && 0 <= i < |plan.heads| && plan.heads[i].fileId == v.fileId
        ensures v.revision <= plan.heads[i].revision
      {
        assert IsHeadId(plan, v.fileId) && (v.fileId, v.revision) in s.versions;
      }
      forall v, i | v in plan.versions && 0 <= i < |plan.tombs| && plan.tombs[i].fileId == v.fileId
        ensures v.revision <= plan.tombs[i].deletionRevision
      {
        assert IsTombId(plan, v.fileId) && (v.fileId, v.revision) in s.versions;
      }
    }
  }

  /** A finished migration is a sound store, and so is whatever becomes of it.  Its history keeps to
      the revisions its objects have reached exactly when no planned version is ahead of its own. */
  lemma MigratedIsSound(o: Oracle, c: Config, d0: Db, d: Db, plan: Plan, s: Store, steps: seq<Step>)
    requires Orderly(plan) && Finished(d0, d, plan) && 0 <= d0.schema.minRetained <= d0.schema.head && Opens(d, s)
    ensures Sound(Run(o, c, s, steps)) && LogKnown(s) && (HistoryFits(s) <==> HistoryNotAhead(plan))
    ensures HistoryNotAhead(plan) ==> HistoryFits(Run(o, c, s, steps)) && LogKnown(Run(o, c, s, steps))
  {
    SoundWhenMoved(d0, d, plan, s);
    RunKeepsSound(o, c, s, steps);
    if HistoryNotAhead(plan) { RunKeepsHistory(o, c, s, steps); }
  }

  lemma SoundWhenMoved(d0: Db, d: Db, plan: Plan, s: Store)
    requires Orderly(plan) && Finished(d0, d, plan) && 0 <= d0.schema.minRetained <= d0.schema.head && Opens(d, s)
    ensures Sound(s) && LogKnown(s) && (HistoryFits(s) <==> HistoryNotAhead(plan))
  {
    MigratedLifeCycle(plan, s);
    MigratedNames(plan, s.heads);
    ReachedIsPlanned(plan, s);
    MigratedHistory(plan, s);
  }

  // ---------- on the old rows ----------

  /** The history row belongs to the object: by its own id, or by the path when it has none. */
  predicate BelongsTo(r: LegacyVersion, f: LegacyFile) {
    if IsHex32(r.fileId) then r.fileId == f.fileId else r.path == f.path
  }

  /** No history row is of a later revision than the row of its object. */
  ghost predicate RowsNotAhead(files: seq<LegacyFile>, versions: seq<LegacyVersion>) {
    forall r, f :: r in versions && f in files && BelongsTo(r, f) ==> r.revision <= f.revision
  }

  /** The id of every path that has one, and of no other. */
  ghost predicate IdsOfPaths(idOf: map<string, string>, rows: seq<LegacyFile>) {
    (forall f :: f in rows ==> f.path in idOf && idOf[f.path] == f.fileId) && forall p :: p in idOf ==>
      exists f :: f in rows && f.path == p
  }

  lemma {:induction false} LiveIdsOfPaths(files: seq<LegacyFile>, n: nat, probe: Probe)
    requires OwnPaths(files) && n <= |files|
    ensures IdsOfPaths(LivePass(files[..n], probe, []).idOf, Live(files[..n]))
  {
    if n > 0 {
      assert files[..n][..n - 1] == files[..n - 1];
      LiveIdsOfPaths(files, n - 1, probe);
      if !files[n - 1].deleted {
        LiveOnesHaveOtherPaths(files, n);
        OnePathMore(LivePass(files[..n - 1], probe, []).idOf, Live(files[..n - 1]), files[n - 1]);
      }
    }
  }

  lemma LiveOnesHaveOtherPaths(files: seq<LegacyFile>, n: nat)
    requires OwnPaths(files) && 0 < n <= |files|
    ensures forall g :: g in Live(files[..n - 1]) ==> g.path != files[n - 1].path
  {
    LiveAndDeleted(files[..n - 1]);
    forall g | g in Live(files[..n - 1]) ensures g.path != files[n - 1].path {
      var i :| 0 <= i < n - 1 && files[..n - 1][i] == g;
    }
  }

  lemma OnePathMore(idOf: map<string, string>, rows: seq<LegacyFile>, f: LegacyFile)
    requires IdsOfPaths(idOf, rows) && forall g :: g in rows ==> g.path != f.path
    ensures f.path !in idOf && IdsOfPaths(idOf[f.path := f.fileId], rows + [f])
  {
    var idOf' := idOf[f.path := f.fileId];
    forall p | p in idOf' ensures exists g :: g in rows + [f] && g.path == p {
      if p in idOf {
        var g :| g in rows && g.path == p;
        assert g in rows + [f];
      } else {
        assert f in rows + [f];
      }
    }
  }

  lemma {:induction false} DeletedIdsOfPaths(start: Placed, files: seq<LegacyFile>, n: nat,
          versions: seq<LegacyVersion>)
    requires OwnPaths(files) && n <= |files| && IdsOfPaths(start.idOf, Live(files))
    ensures IdsOfPaths(DeletedPass(start, files[..n], versions, []).idOf, Live(files) + Deleted(files[..n]))
  {
    if n == 0 {
      assert Live(files) + Deleted(files[..0]) == Live(files);
    } else {
      assert files[..n][..n - 1] == files[..n - 1];
      DeletedIdsOfPaths(start, files, n - 1, versions);
      var f, rows := files[n - 1], Live(files) + Deleted(files[..n - 1]);
      if f.deleted {
        OthersHaveOtherPaths(files, n);
        OnePathMore(DeletedPass(start, files[..n - 1], versions, []).idOf, rows, f);
        assert rows + [f] == Live(files) + Deleted(files[..n]);
      }
    }
  }

  lemma OthersHaveOtherPaths(files: seq<LegacyFile>, n: nat)
    requires OwnPaths(files) && 0 < n <= |files| && files[n - 1].deleted
    ensures forall g :: g in Live(files) + Deleted(files[..n - 1]) ==> g.path != files[n - 1].path
  {
    LiveAndDeleted(files);
    LiveAndDeleted(files[..n - 1]);
    forall g | g in Live(files) + Deleted(files[..n - 1]) ensures g.path != files[n - 1].path {
      if g in Live(files) {
        var i :| 0 <= i < |files| && files[i] == g;
        assert i != n - 1;
      } else {
        var i :| 0 <= i < n - 1 && files[..n - 1][i] == g;
      }
    }
  }

  lemma OwnerIs(idOf: map<string, string>, rows: seq<LegacyFile>, r: LegacyVersion, f: LegacyFile)
    requires IdsOfPaths(idOf, rows) && f in rows && IsHex32(f.fileId)
    requires forall g, h :: g in rows && h in rows && g.fileId == h.fileId ==> g == h
    ensures BelongsTo(r, f) <==> Owner(idOf, r) == f.fileId
  {
    assert f.fileId != "";
    if !IsHex32(r.fileId) && r.path in idOf {
      var g :| g in rows && g.path == r.path;
      assert idOf[r.path] == g.fileId;
    }
  }

  /** So a caller can tell from the old rows: with ids and paths of their own, the migrated history
      keeps to its objects exactly when no old history row is ahead of the row it belongs to. */
  lemma HistoryNotAheadIs(files: seq<LegacyFile>, versions: seq<LegacyVersion>, probe: Probe, random: seq<string>)
    requires Resumable(files)
    ensures HistoryNotAhead(PlanOf(files, versions, probe, random)) <==> RowsNotAhead(files, versions)
  {
    GoodIdsAreKept(files, versions, probe, random);
    var plan, rows := PlanOf(files, versions, probe, []), Live(files) + Deleted(files);
    LiveAndDeleted(files);
    PathsAreKept(files, versions, probe);
    var idOf := plan.placed.idOf;
    RowsAreDistinct(files);
    forall r, f | r in versions && f in files ensures BelongsTo(r, f) <==> Owner(idOf, r) == f.fileId {
      assert f in rows;
      OwnerIs(idOf, rows, r, f);
    }
    HistoryIsConserved(idOf, versions, probe);
    PlanFollowsRows(files, versions, probe);
    PlannedRows(files, plan);
    AheadByOwner(files, versions, probe, idOf, plan);
  }

  lemma RowsAreDistinct(files: seq<LegacyFile>)
    requires GoodIds(files)
    ensures var rows := Live(files) + Deleted(files);
            forall g, h :: g in rows && h in rows && g.fileId == h.fileId ==> g == h
    ensures forall f :: f in files ==> IsHex32(f.fileId)
  {
    LiveAndDeleted(files);
    forall g, h | g in files && h in files && g.fileId == h.fileId ensures g == h {
      var i :| 0 <= i < |files| && files[i] == g;
      var j :| 0 <= j < |files| && files[j] == h;
    }
  }

  lemma PathsAreKept(files: seq<LegacyFile>, versions: seq<LegacyVersion>, probe: Probe)
    requires Resumable(files)
    ensures IdsOfPaths(PlanOf(files, versions, probe, []).placed.idOf, Live(files) + Deleted(files))
  {
    assert files[..|files|] == files;
    LiveIdsOfPaths(files, |files|, probe);
    DeletedIdsOfPaths(LivePass(files, probe, []), files, |files|, versions);
  }

  ghost predicate IsRow(files: seq<LegacyFile>, id: string, revision: int) {
    exists f :: f in files && f.fileId == id && f.revision == revision
  }

  ghost predicate IsPlanned(plan: Plan, id: string, revision: int) {
    (exists i :: 0 <= i < |plan.heads| && plan.heads[i].fileId == id && plan.heads[i].revision == revision) ||
    exists i :: 0 <= i < |plan.tombs| && plan.tombs[i].fileId == id && plan.tombs[i].deletionRevision == revision
  }

  /** Each planned object is that of a row, with its id and revision, and every row's object is planned. */
  ghost predicate PlansRows(files: seq<LegacyFile>, plan: Plan) {
    (forall i :: 0 <= i < |plan.heads| ==> IsRow(files, plan.heads[i].fileId, plan.heads[i].revision)) &&
    (forall i :: 0 <= i < |plan.tombs| ==> IsRow(files, plan.tombs[i].fileId, plan.tombs[i].deletionRevision)) &&
    forall f :: f in files ==> IsPlanned(plan, f.fileId, f.revision)
  }

  /** Heads follow the live rows and tombstones the deleted ones. */
  ghost predicate FollowsRows(plan: Plan, live: seq<LegacyFile>, gone: seq<LegacyFile>) {
    |plan.heads| == |live| && |plan.tombs| == |gone| &&
    (forall i :: 0 <= i < |live| ==>
      plan.heads[i].fileId == live[i].fileId && plan.heads[i].revision == live[i].revision) &&
    forall i :: 0 <= i < |gone| ==>
      plan.tombs[i].fileId == gone[i].fileId && plan.tombs[i].deletionRevision == gone[i].revision
  }

  lemma PlanFollowsRows(files: seq<LegacyFile>, versions: seq<LegacyVersion>, probe: Probe)
    requires GoodIds(files)
    ensures FollowsRows(PlanOf(files, versions, probe, []), Live(files), Deleted(files))
  {
    GoodIdsAreKept(files, versions, probe, []);
    RowsAreConserved(files, versions, probe, []);
  }

  lemma PlannedRows(files: seq<LegacyFile>, plan: Plan)
    requires FollowsRows(plan, Live(files), Deleted(files))
    ensures PlansRows(files, plan)
  {
    var live, gone := Live(files), Deleted(files);
    LiveAndDeleted(files);
    forall i | 0 <= i < |plan.heads| ensures IsRow(files, plan.heads[i].fileId, plan.heads[i].revision) {
      assert live[i] in files;
    }
    forall i | 0 <= i < |plan.tombs| ensures IsRow(files, plan.tombs[i].fileId, plan.tombs[i].deletionRevision) {
      assert gone[i] in files;
    }
    forall f | f in files ensures IsPlanned(plan, f.fileId, f.revision) {
      if f.deleted {
        var i :| 0 <= i < |gone| && gone[i] == f;
        assert plan.tombs[i].fileId == f.fileId;
      } else {
        var i :| 0 <= i < |live| && live[i] == f;
        assert plan.heads[i].fileId == f.fileId;
      }
    }
  }

  lemma AheadByOwner(files: seq<LegacyFile>, versions: seq<LegacyVersion>, probe: Probe, idOf: map<string, string>,
          plan: Plan)
    requires PlansRows(files, plan) && plan.versions == plan.history.versions
    requires forall f, g :: f in files && g in files && f.fileId == g.fileId ==> f == g
    requires forall f :: f in files ==> IsHex32(f.fileId)
    requires PlacesTaken(plan.history) && RowsPlaced(plan.history, idOf, versions, probe)
    requires forall r, f :: r in versions && f in files ==> (BelongsTo(r, f) <==> Owner(idOf, r) == f.fileId)
    ensures HistoryNotAhead(plan) <==> RowsNotAhead(files, versions)
  {
    if HistoryNotAhead(plan) {
      forall r, f | r in versions && f in files && BelongsTo(r, f) ensures r.revision <= f.revision {
        assert f.fileId != "" && (Owner(idOf, r), r.revision) in plan.history.taken;
        var v :| v in plan.history.versions && (v.fileId, v.revision) == (f.fileId, r.revision);
      }
    }
    if RowsNotAhead(files, versions) {
      forall v, f | v in plan.versions && f in files && f.fileId == v.fileId ensures v.revision <= f.revision {
        var r :| r in versions && Owner(idOf, r) != "" && v == VersionFrom(r, Owner(idOf, r), probe);
        assert BelongsTo(r, f);
      }
    }
  }
}
