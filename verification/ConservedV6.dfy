/** What the plan for schema 6 takes over from the old rows, field by field. */
module ConservedV6 {
  import opened Bytes
  import opened Options
  import opened Tables
  import opened PlanV6
  import opened SchemaV6

  /** A probed key epoch, zero where the header has none. */
  predicate IsEpoch(found: Option<int>, epoch: int) {
    (found.Some? ==> epoch == found.value) && (found.None? ==> epoch == 0)
  }

  /** A live object takes over all of its row; only the id may be another.  What its content's header
      tells comes from a look at the file. */
  predicate HeadCarries(h: Head, f: LegacyFile, probe: Probe) {
    h.revision == f.revision && h.contentHash == f.contentHash && h.blobId == f.contentHash && h.size == f.size &&
    h.mtime == f.mtime && h.pseudonym == f.path && h.canonicalKey == f.canonicalKey &&
    h.encryptedMetadata == f.metaEnc && h.metaGeneration == f.metaGeneration &&
    h.createdAt == f.createdAt && h.updatedAt == f.updatedAt &&
    h.envelope == probe.envelope(f.contentHash) && h.contentGeneration == probe.generation(f.contentHash) &&
    IsEpoch(probe.keyEpoch(f.contentHash), h.keyEpoch)
  }

  /** A deletion bars the same name and key, was made when the row was last changed, at the row's
      revision, and is kept without end. */
  predicate TombCarries(t: Tombstone, f: LegacyFile) {
    t.lastPseudonym == f.path && t.canonicalKey == f.canonicalKey && t.deletionRevision == f.revision &&
    t.metaGeneration == f.metaGeneration && t.deletedAt == f.updatedAt && t.retainUntil == 0 &&
    t.deletionSequence == 0 && t.contentGeneration == 0 && t.keyEpoch == 0
  }

  predicate VersionCarries(v: Version, r: LegacyVersion, probe: Probe) {
    v.revision == r.revision && v.blobId == r.blobId && v.contentHash == r.contentHash && v.size == r.size &&
    v.mtime == r.mtime && v.action == r.action && v.deviceId == r.deviceId && v.createdAt == r.createdAt &&
    v.operationId == "" && v.contentGeneration == probe.generation(r.blobId) &&
    IsEpoch(probe.keyEpoch(r.blobId), v.keyEpoch)
  }

  /** Live rows and deleted rows become live objects and deletions in their order, and nothing of what
      they say is lost or changed; a deletion goes back to the last content planned for its object. */
  lemma RowsAreCarried(files: seq<LegacyFile>, versions: seq<LegacyVersion>, probe: Probe, random: seq<string>)
    ensures var plan := PlanOf(files, versions, probe, random);
            |plan.heads| == |Live(files)| && |plan.tombs| == |Deleted(files)| &&
            (forall i :: 0 <= i < |plan.heads| ==> HeadCarries(plan.heads[i], Live(files)[i], probe)) &&
            (forall i :: 0 <= i < |plan.tombs| ==> TombCarries(plan.tombs[i], Deleted(files)[i])) &&
            forall i :: 0 <= i < |plan.tombs| ==>
              plan.tombs[i].priorContentHash == LastContent(plan.versions, plan.tombs[i].fileId)
  {
    RowsAreConserved(files, versions, probe, random);
    var plan := PlanOf(files, versions, probe, random);
    forall i | 0 <= i < |plan.tombs|
      ensures plan.tombs[i].priorContentHash == LastContent(plan.versions, plan.tombs[i].fileId)
    {
      PriorIsLastContent(plan.placed.idOf, versions, probe, plan.tombs[i].fileId);
    }
  }

  // ---------- whose history it is ----------

  /** Paths are the key of the old table. */
  predicate PathsDiffer(files: seq<LegacyFile>) {
    forall i, j :: 0 <= i < j < |files| ==> files[i].path != files[j].path
  }

  /** The id found by a path is that of the object, or the deletion, that goes by it. */
  ghost predicate FoundByPath(p: Placed, live: seq<LegacyFile>, deleted: seq<LegacyFile>) {
    |p.heads| == |live| && |p.tombs| == |deleted| &&
    (forall i :: 0 <= i < |live| ==> live[i].path in p.idOf && p.idOf[live[i].path] == p.heads[i].fileId) &&
    (forall i :: 0 <= i < |deleted| ==> deleted[i].path in p.idOf && p.idOf[deleted[i].path] == p.tombs[i].fileId) &&
    forall path :: path in p.idOf ==>
      (exists f :: f in live && f.path == path) || exists f :: f in deleted && f.path == path
  }

  /** The row is none of these. */
  predicate OtherPath(rows: seq<LegacyFile>, path: string) {
    forall f :: f in rows ==> f.path != path
  }

  lemma PlaceLiveIsFound(p: Placed, live: seq<LegacyFile>, f: LegacyFile, probe: Probe, random: seq<string>)
    requires FoundByPath(p, live, []) && OtherPath(live, f.path)
    ensures FoundByPath(PlaceLive(p, f, probe, random), live + [f], [])
  {
    var p', all := PlaceLive(p, f, probe, random), live + [f];
    assert forall g :: g in live ==> g in all;
    assert f in all;
    assert forall i :: 0 <= i < |live| ==> live[i] in live;
  }

  lemma PlaceDeletedIsFound(p: Placed, live: seq<LegacyFile>, deleted: seq<LegacyFile>, f: LegacyFile,
          versions: seq<LegacyVersion>, random: seq<string>)
    requires FoundByPath(p, live, deleted) && OtherPath(live, f.path) && OtherPath(deleted, f.path)
    ensures FoundByPath(PlaceDeleted(p, f, versions, random), live, deleted + [f])
  {
    var p', all := PlaceDeleted(p, f, versions, random), deleted + [f];
    assert forall g :: g in deleted ==> g in all;
    assert f in all;
    assert forall i :: 0 <= i < |live| ==> live[i] in live;
    assert forall i :: 0 <= i < |deleted| ==> deleted[i] in deleted;
    assert f.path !in p.idOf;
  }

  lemma RestIsOther(files: seq<LegacyFile>)
    requires PathsDiffer(files) && files != []
    ensures PathsDiffer(files[..|files| - 1]) && OtherPath(Live(files[..|files| - 1]), files[|files| - 1].path) &&
            OtherPath(Deleted(files[..|files| - 1]), files[|files| - 1].path)
  {
    var init := files[..|files| - 1];
    LiveAndDeleted(init);
    assert forall i :: 0 <= i < |init| ==> init[i] == files[i];
  }

  lemma {:induction false} LiveIsFound(files: seq<LegacyFile>, probe: Probe, random: seq<string>)
    requires PathsDiffer(files)
    ensures FoundByPath(LivePass(files, probe, random), Live(files), [])
  {
    if files != [] {
      var init, f := files[..|files| - 1], files[|files| - 1];
      RestIsOther(files);
      LiveIsFound(init, probe, random);
      if !f.deleted { PlaceLiveIsFound(LivePass(init, probe, random), Live(init), f, probe, random); }
    }
  }

  lemma {:induction false} DeletedIsFound(start: Placed, live: seq<LegacyFile>, files: seq<LegacyFile>,
          versions: seq<LegacyVersion>, random: seq<string>)
    requires PathsDiffer(files) && FoundByPath(start, live, [])
    requires forall f :: f in files && f.deleted ==> OtherPath(live, f.path)
    ensures FoundByPath(DeletedPass(start, files, versions, random), live, Deleted(files))
  {
    if files != [] {
      var init, f := files[..|files| - 1], files[|files| - 1];
      RestIsOther(files);
      assert f in files && forall g :: g in init ==> g in files;
      DeletedIsFound(start, live, init, versions, random);
      if f.deleted {
        PlaceDeletedIsFound(DeletedPass(start, init, versions, random), live, Deleted(init), f, versions, random);
      }
    }
  }

  /** The object a history row belongs to: the one of its own id, if that is well formed, and else the
      object or deletion that goes by its path. */
  ghost predicate BelongsTo(plan: Plan, r: LegacyVersion, id: string) {
    if IsHex32(r.fileId) then id == r.fileId
    else
      (exists i :: 0 <= i < |plan.heads| && plan.heads[i].pseudonym == r.path && plan.heads[i].fileId == id) ||
      exists i :: 0 <= i < |plan.tombs| && plan.tombs[i].lastPseudonym == r.path && plan.tombs[i].fileId == id
  }

  ghost predicate HasRow(plan: Plan, versions: seq<LegacyVersion>, probe: Probe, v: Version) {
    exists r :: r in versions && VersionCarries(v, r, probe) && BelongsTo(plan, r, v.fileId)
  }

  ghost predicate HasPlace(plan: Plan, id: string, revision: int) {
    exists v :: v in plan.versions && v.revision == revision && v.fileId == id
  }

  /** The path table finds what goes by the path. */
  ghost predicate PathsLead(files: seq<LegacyFile>, plan: Plan) {
    FoundByPath(plan.placed, Live(files), Deleted(files)) && plan.heads == plan.placed.heads &&
    |plan.tombs| == |plan.placed.tombs| &&
    (forall i :: 0 <= i < |plan.heads| ==> plan.heads[i].pseudonym == Live(files)[i].path) &&
    forall i :: 0 <= i < |plan.tombs| ==>
      plan.tombs[i].lastPseudonym == Deleted(files)[i].path && plan.tombs[i].fileId == plan.placed.tombs[i].fileId
  }

  lemma PlanLeads(files: seq<LegacyFile>, versions: seq<LegacyVersion>, probe: Probe, random: seq<string>)
    requires PathsDiffer(files)
    ensures PathsLead(files, PlanOf(files, versions, probe, random))
  {
    LiveIsFound(files, probe, random);
    LivePathsAreOwn(files);
    DeletedIsFound(LivePass(files, probe, random), Live(files), files, versions, random);
    RowsAreCarried(files, versions, probe, random);
    DeletedKeepsHeads(LivePass(files, probe, random), files, versions, random);
  }

  lemma LivePathsAreOwn(files: seq<LegacyFile>)
    requires PathsDiffer(files)
    ensures forall f :: f in files && f.deleted ==> OtherPath(Live(files), f.path)
  {
    LiveAndDeleted(files);
  }

  /** An owner, and the only one. */
  lemma OwnerIsExact(files: seq<LegacyFile>, plan: Plan, r: LegacyVersion, id: string)
    requires PathsLead(files, plan)
    ensures BelongsTo(plan, r, id) ==> Owner(plan.placed.idOf, r) == id
    ensures Owner(plan.placed.idOf, r) == id && id != "" ==> BelongsTo(plan, r, id)
  {
    if !IsHex32(r.fileId) && r.path in plan.placed.idOf { NameIsFound(files, plan, r); }
  }

  lemma NameIsFound(files: seq<LegacyFile>, plan: Plan, r: LegacyVersion)
    requires PathsLead(files, plan) && r.path in plan.placed.idOf && !IsHex32(r.fileId)
    ensures BelongsTo(plan, r, Owner(plan.placed.idOf, r))
  {
    if f :| f in Live(files) && f.path == r.path {
      var i :| 0 <= i < |Live(files)| && Live(files)[i] == f;
      assert plan.heads[i].pseudonym == r.path;
    } else {
      var f :| f in Deleted(files) && f.path == r.path;
      var i :| 0 <= i < |Deleted(files)| && Deleted(files)[i] == f;
      assert plan.tombs[i].lastPseudonym == r.path;
    }
  }

  /** Every planned version takes over one of the history rows, and is of the object that row belongs
      to; and wherever a row belongs to an object, there is a planned version of that object at the row's
      revision. */
  lemma HistoryIsCarried(files: seq<LegacyFile>, versions: seq<LegacyVersion>, probe: Probe, random: seq<string>)
    requires PathsDiffer(files)
    ensures var plan := PlanOf(files, versions, probe, random);
            (forall v :: v in plan.versions ==> HasRow(plan, versions, probe, v)) &&
            forall r, id :: r in versions && id != "" && BelongsTo(plan, r, id) ==> HasPlace(plan, id, r.revision)
  {
    var plan := PlanOf(files, versions, probe, random);
    HistoryIsConserved(plan.placed.idOf, versions, probe);
    PlanLeads(files, versions, probe, random);
    forall v | v in plan.versions ensures HasRow(plan, versions, probe, v) {
      var r :| r in versions && Owner(plan.placed.idOf, r) != "" &&
        v == VersionFrom(r, Owner(plan.placed.idOf, r), probe);
      OwnerIsExact(files, plan, r, v.fileId);
      assert VersionCarries(v, r, probe) && BelongsTo(plan, r, v.fileId);
    }
    forall r, id | r in versions && id != "" && BelongsTo(plan, r, id) ensures HasPlace(plan, id, r.revision) {
      OwnerIsExact(files, plan, r, id);
      assert (id, r.revision) in plan.history.taken;
    }
  }

  // ---------- doubtful deletions ----------

  /** Ids in use are those of the rows placed so far, and random ones. */
  ghost predicate SeenAre(seen: set<string>, rows: seq<LegacyFile>, random: seq<string>) {
    forall id :: IsHex32(id) && id !in random ==> (id in seen <==> exists r :: r in rows && r.fileId == id)
  }

  lemma OneMoreSeen(p: Placed, f: LegacyFile, rows: seq<LegacyFile>, random: seq<string>)
    requires SeenAre(p.seen, rows, random) && p.used < |random|
    ensures SeenAre(p.seen + {Assign(p, f.fileId, random).0}, rows + [f], random)
  {
    var id := Assign(p, f.fileId, random).0;
    assert id == f.fileId || random[p.used] in random;
    assert forall r :: r in rows + [f] <==> r in rows || r == f;
  }

  /** A deletion is in doubt when nothing is known of its past, or its id is malformed, or a live row's
      or an earlier deletion's. */
  predicate InDoubt(live: seq<LegacyFile>, deleted: seq<LegacyFile>, i: int, versions: seq<LegacyVersion>)
    requires 0 <= i < |deleted|
  {
    (forall v :: v in versions ==> v.path != deleted[i].path) || !IsHex32(deleted[i].fileId) ||
    (exists r :: r in live && r.fileId == deleted[i].fileId) ||
    exists j :: 0 <= j < i && deleted[j].fileId == deleted[i].fileId
  }

  ghost predicate DoubtsMarked(tombs: seq<Tombstone>, live: seq<LegacyFile>, deleted: seq<LegacyFile>,
      versions: seq<LegacyVersion>)
  {
    |tombs| == |deleted| &&
    forall i :: 0 <= i < |tombs| ==> (tombs[i].needsReview <==> InDoubt(live, deleted, i, versions))
  }

  lemma {:induction false} LiveAreSeen(files: seq<LegacyFile>, n: nat, probe: Probe, random: seq<string>)
    requires Fresh(random, files) && n <= |files|
    ensures SeenAre(LivePass(files[..n], probe, random).seen, Live(files[..n]), random)
  {
    if n > 0 {
      assert files[..n][..n - 1] == files[..n - 1];
      LiveAreSeen(files, n - 1, probe, random);
      LiveIdsAreOwn(files, n - 1, probe, random);
      LiveAndDeleted(files[..n - 1]);
      if !files[n - 1].deleted {
        OneMoreSeen(LivePass(files[..n - 1], probe, random), files[n - 1], Live(files[..n - 1]), random);
      }
    }
  }

  /** A row not placed yet is doubtful exactly when it is in doubt. */
  lemma DoubtIsExact(p: Placed, f: LegacyFile, live: seq<LegacyFile>, deleted: seq<LegacyFile>,
          versions: seq<LegacyVersion>, files: seq<LegacyFile>, random: seq<string>)
    requires SeenAre(p.seen, live + deleted, random) && Fresh(random, files) && f in files
    ensures Doubtful(p, f, versions) <==> InDoubt(live, deleted + [f], |deleted|, versions)
  {
    assert forall r :: r in live + deleted <==> r in live || r in deleted;
    assert forall j :: 0 <= j < |deleted| ==> (deleted + [f])[j] == deleted[j] && deleted[j] in deleted;
    if r :| r in deleted && r.fileId == f.fileId { var j :| 0 <= j < |deleted| && deleted[j] == r; }
    assert f.fileId !in random;
  }

  lemma OneMoreMarked(p: Placed, f: LegacyFile, live: seq<LegacyFile>, deleted: seq<LegacyFile>,
          versions: seq<LegacyVersion>, files: seq<LegacyFile>, random: seq<string>)
    requires SeenAre(p.seen, live + deleted, random) && Fresh(random, files) && f in files
    requires DoubtsMarked(p.tombs, live, deleted, versions)
    ensures DoubtsMarked(PlaceDeleted(p, f, versions, random).tombs, live, deleted + [f], versions)
  {
    DoubtIsExact(p, f, live, deleted, versions, files, random);
    forall i | 0 <= i < |deleted|
      ensures InDoubt(live, deleted + [f], i, versions) <==> InDoubt(live, deleted, i, versions)
    {
      assert forall j :: 0 <= j < |deleted| ==> (deleted + [f])[j] == deleted[j];
    }
  }

  lemma {:induction false} DeletedAreMarked(start: Placed, live: seq<LegacyFile>, files: seq<LegacyFile>, n: nat,
          versions: seq<LegacyVersion>, random: seq<string>)
    requires Fresh(random, files) && n <= |files| && OwnIds(start, files, random)
    requires start.tombs == [] && live == Live(files) && |start.heads| == |live| && SeenAre(start.seen, live, random)
    ensures var p := DeletedPass(start, files[..n], versions, random);
            SeenAre(p.seen, live + Deleted(files[..n]), random) &&
            DoubtsMarked(p.tombs, live, Deleted(files[..n]), versions)
  {
    if n == 0 {
      assert live + [] == live;
    } else {
      var p, f, placed := DeletedPass(start, files[..n - 1], versions, random), files[n - 1], Deleted(files[..n - 1]);
      assert files[..n][..n - 1] == files[..n - 1];
      DeletedAreMarked(start, live, files, n - 1, versions, random);
      if f.deleted {
        RandomIsLeft(start, files, n, versions, random);
        OneMoreMarked(p, f, live, placed, versions, files, random);
        OneMoreSeen(p, f, live + placed, random);
        assert live + placed + [f] == live + (placed + [f]);
      } else {
        assert placed + [] == placed;
      }
    }
  }

  lemma RandomIsLeft(start: Placed, files: seq<LegacyFile>, n: nat, versions: seq<LegacyVersion>, random: seq<string>)
    requires Fresh(random, files) && 0 < n <= |files| && OwnIds(start, files, random) && files[n - 1].deleted
    requires start.tombs == [] && |start.heads| == |Live(files)|
    ensures DeletedPass(start, files[..n - 1], versions, random).used < |random|
  {
    DeletedIdsAreOwn(start, files, n - 1, versions, random);
    FewerDeleted(files, n);
    LiveAndDeleted(files);
  }

  /** With a source of fresh ids, exactly the deletions in doubt are marked for review. */
  lemma ReviewIsExact(files: seq<LegacyFile>, versions: seq<LegacyVersion>, probe: Probe, random: seq<string>)
    requires Fresh(random, files)
    ensures DoubtsMarked(PlanOf(files, versions, probe, random).tombs, Live(files), Deleted(files), versions)
  {
    assert files[..|files|] == files;
    LiveAreSeen(files, |files|, probe, random);
    LiveIdsAreOwn(files, |files|, probe, random);
    DeletedAreMarked(LivePass(files, probe, random), Live(files), files, |files|, versions, random);
    RowsAreConserved(files, versions, probe, random);
  }

  // ---------- the report ----------

  /** How many rows have a content of the third envelope without a readable key epoch. */
  function WithoutEpoch(rows: seq<LegacyFile>, probe: Probe): nat {
    if rows == [] then 0
    else
      var f := rows[|rows| - 1];
      WithoutEpoch(rows[..|rows| - 1], probe) +
      if probe.envelope(f.contentHash) == 3 && probe.keyEpoch(f.contentHash) == None then 1 else 0
  }

  /** How many rows have the id of an earlier one. */
  function Repeats(rows: seq<LegacyFile>): nat {
    if rows == [] then 0
    else
      var init, id := rows[..|rows| - 1], rows[|rows| - 1].fileId;
      Repeats(init) + if IsHex32(id) && exists r :: r in init && r.fileId == id then 1 else 0
  }

  /** How many rows have a path without history. */
  function Bare(rows: seq<LegacyFile>, versions: seq<LegacyVersion>): nat {
    if rows == [] then 0
    else
      Bare(rows[..|rows| - 1], versions) +
      if forall v :: v in versions ==> v.path != rows[|rows| - 1].path then 1 else 0
  }

  function Marked(tombs: seq<Tombstone>): nat {
    if tombs == [] then 0 else Marked(tombs[..|tombs| - 1]) + if tombs[|tombs| - 1].needsReview then 1 else 0
  }

  lemma OneMoreLive(p: Placed, f: LegacyFile, live: seq<LegacyFile>, probe: Probe, random: seq<string>)
    requires p.badEpochs == WithoutEpoch(live, probe) && p.duplicates == Repeats(live)
    requires SeenAre(p.seen, live, random) && f.fileId !in random && forall id :: id in p.seen ==> IsHex32(id)
    ensures var p' := PlaceLive(p, f, probe, random);
            p'.badEpochs == WithoutEpoch(live + [f], probe) && p'.duplicates == Repeats(live + [f])
  {
    assert (live + [f])[..|live|] == live;
  }

  lemma {:induction false} LiveAreCounted(files: seq<LegacyFile>, n: nat, probe: Probe, random: seq<string>)
    requires Fresh(random, files) && n <= |files|
    ensures var p, live := LivePass(files[..n], probe, random), Live(files[..n]);
            p.badEpochs == WithoutEpoch(live, probe) && p.duplicates == Repeats(live) && p.pseudo == 0 && p.review == 0
  {
    if n > 0 {
      assert files[..n][..n - 1] == files[..n - 1];
      LiveAreCounted(files, n - 1, probe, random);
      LiveAreSeen(files, n - 1, probe, random);
      LiveIdsAreOwn(files, n - 1, probe, random);
      if files[n - 1].deleted {
        assert Live(files[..n - 1]) + [] == Live(files[..n - 1]);
      } else {
        OneMoreLive(LivePass(files[..n - 1], probe, random), files[n - 1], Live(files[..n - 1]), probe, random);
      }
    }
  }

  lemma OneMoreDeleted(p: Placed, f: LegacyFile, deleted: seq<LegacyFile>, versions: seq<LegacyVersion>,
          random: seq<string>)
    requires p.pseudo == Bare(deleted, versions) && p.review == Marked(p.tombs)
    ensures var p' := PlaceDeleted(p, f, versions, random);
            p'.pseudo == Bare(deleted + [f], versions) && p'.review == Marked(p'.tombs) &&
            p'.duplicates == p.duplicates && p'.badEpochs == p.badEpochs
  {
    var p' := PlaceDeleted(p, f, versions, random);
    assert (deleted + [f])[..|deleted|] == deleted && p'.tombs[..|p.tombs|] == p.tombs;
    assert NoHistory(versions, f.path) <==> forall v :: v in versions ==> v.path != f.path;
  }

  lemma {:induction false} DeletedAreCounted(start: Placed, files: seq<LegacyFile>, versions: seq<LegacyVersion>,
          random: seq<string>)
    requires start.tombs == [] && start.pseudo == 0 && start.review == 0
    ensures var p := DeletedPass(start, files, versions, random);
            p.pseudo == Bare(Deleted(files), versions) && p.review == Marked(p.tombs) &&
            p.duplicates == start.duplicates && p.badEpochs == start.badEpochs
  {
    if files != [] {
      var init, f := files[..|files| - 1], files[|files| - 1];
      DeletedAreCounted(start, init, versions, random);
      if f.deleted { OneMoreDeleted(DeletedPass(start, init, versions, random), f, Deleted(init), versions, random); }
      else { assert Deleted(init) + [] == Deleted(init); }
    }
  }

  /** The report counts what it says: live rows that repeat an id, contents without a key epoch, deleted
      rows without history, and the deletions marked for review. */
  lemma ReportIsExact(files: seq<LegacyFile>, versions: seq<LegacyVersion>, probe: Probe, random: seq<string>)
    requires Fresh(random, files)
    ensures var p := PlanOf(files, versions, probe, random).placed;
            p.duplicates == Repeats(Live(files)) && p.badEpochs == WithoutEpoch(Live(files), probe) &&
            p.pseudo == Bare(Deleted(files), versions) && p.review == Marked(p.tombs)
  {
    assert files[..|files|] == files;
    LiveAreCounted(files, |files|, probe, random);
    LiveIdsAreOwn(files, |files|, probe, random);
    DeletedAreCounted(LivePass(files, probe, random), files, versions, random);
  }

  /** A database that is at version 6, or has no old tables, is left alone. */
  lemma NewIsLeftAlone(d: Db, files: seq<LegacyFile>, versions: seq<LegacyVersion>, probe: Probe, random: seq<string>,
          cut: Option<Cut>)
    requires d.schema.version >= 6 || !d.legacy
    ensures Attempted(d, files, versions, probe, random, cut) == d
  {
  }

  // ---------- from the old tables to the new ----------

  /** A live row is a live object of its id, and a deleted row a deletion, and the register of all ids
      knows them as such. */
  predicate LiveRowIsThere(d: Db, f: LegacyFile, probe: Probe) {
    f.fileId in d.heads && HeadCarries(d.heads[f.fileId], f, probe) &&
    f.fileId in d.ledger && d.ledger[f.fileId] == LedgerRow(true, f.createdAt, 0)
  }

  predicate DeletedRowIsThere(d: Db, f: LegacyFile) {
    f.fileId in d.tombs && TombCarries(d.tombs[f.fileId], f) &&
    f.fileId in d.ledger && d.ledger[f.fileId] == LedgerRow(false, f.updatedAt, f.updatedAt)
  }

  ghost predicate EveryRowIsThere(d: Db, files: seq<LegacyFile>, probe: Probe) {
    (forall f :: f in files && !f.deleted ==> LiveRowIsThere(d, f, probe)) &&
    forall f :: f in files && f.deleted ==> DeletedRowIsThere(d, f)
  }

  /** And there is nothing else. */
  ghost predicate NothingElseIsThere(d: Db, files: seq<LegacyFile>) {
    (forall id :: id in d.heads ==> exists f :: f in files && !f.deleted && f.fileId == id) &&
    forall id :: id in d.tombs ==> exists f :: f in files && f.deleted && f.fileId == id
  }

  /** The envelope that may be demanded from then on: that of all live contents, if all have the third,
      or any at all, if one has. */
  function Demandable(files: seq<LegacyFile>, probe: Probe): int {
    if (exists f :: f in files && !f.deleted) && AllAreThird(files, probe) then 3
    else if SomeIsEncrypted(files, probe) then 1 else 0
  }

  predicate AllAreThird(files: seq<LegacyFile>, probe: Probe) {
    forall f :: f in files && !f.deleted ==> probe.envelope(f.contentHash) == 3
  }

  predicate SomeIsEncrypted(files: seq<LegacyFile>, probe: Probe) {
    exists f :: f in files && !f.deleted && 1 <= probe.envelope(f.contentHash) <= 3
  }

  function Larger(a: int, b: int): int {
    if a < b then b else a
  }

  /** Clients start over from the head sequence; an envelope is demanded that the live contents meet, and
      the format that the state of the metadata asks for; nothing demanded before is let go. */
  ghost predicate IsClosed(was: Schema, now: Schema, files: seq<LegacyFile>, probe: Probe) {
    now.version == 6 && now.head == was.head && now.meta == was.meta &&
    now.minRetained == Larger(was.minRetained, was.head) &&
    now.minEnvelope == Larger(was.minEnvelope, Demandable(files, probe)) &&
    now.formatEpoch == Larger(was.formatEpoch, if was.meta == MetaEncrypted then 2 else 1)
  }

  /** A migration that ends has carried every old row over, field by field, and added nothing; then it
      closes the old tables. */
  lemma EveryRowIsCarried(d0: Db, files: seq<LegacyFile>, versions: seq<LegacyVersion>, probe: Probe,
          random: seq<string>)
    requires Resumable(files) && Unmigrated(d0)
    ensures var d := Attempted(d0, files, versions, probe, random, None);
            EveryRowIsThere(d, files, probe) && NothingElseIsThere(d, files) && !d.legacy &&
            IsClosed(d0.schema, d.schema, files, probe)
  {
    var plan, d := PlanOf(files, versions, probe, random), Attempted(d0, files, versions, probe, random, None);
    LastAttemptFinishes(d0, files, versions, probe, [Attempt(random, None)]);
    OneAttemptIs(d0, files, versions, probe, Attempt(random, None));
    GoodIdsAreKept(files, versions, probe, random);
    RowsAreCarried(files, versions, probe, random);
    ResumableIsOrderly(files, versions, probe);
    LiveAndDeleted(files);
    assert EveryRowIsThere(d, files, probe) by { RowsArrive(d0, d, plan, files, probe); }
    assert NothingElseIsThere(d, files) by { NoOthersArrive(d0, d, plan, files); }
    assert plan.floor == Demandable(files, probe) by { FloorIsExact(plan, files, probe); }
  }

  ghost predicate IsPlanOf(plan: Plan, files: seq<LegacyFile>, probe: Probe) {
    |plan.heads| == |Live(files)| && |plan.tombs| == |Deleted(files)| &&
    (forall i :: 0 <= i < |plan.heads| ==>
      HeadCarries(plan.heads[i], Live(files)[i], probe) && plan.heads[i].fileId == Live(files)[i].fileId) &&
    forall i :: 0 <= i < |plan.tombs| ==>
      TombCarries(plan.tombs[i], Deleted(files)[i]) && plan.tombs[i].fileId == Deleted(files)[i].fileId
  }

  lemma RowsArrive(d0: Db, d: Db, plan: Plan, files: seq<LegacyFile>, probe: Probe)
    requires Orderly(plan) && Finished(d0, d, plan) && IsPlanOf(plan, files, probe)
    ensures EveryRowIsThere(d, files, probe)
  {
    forall f | f in files && !f.deleted ensures LiveRowIsThere(d, f, probe) {
      LiveRowArrives(d0, d, plan, files, probe, f);
    }
    forall f | f in files && f.deleted ensures DeletedRowIsThere(d, f) {
      DeletedRowArrives(d0, d, plan, files, probe, f);
    }
  }

  lemma LiveRowArrives(d0: Db, d: Db, plan: Plan, files: seq<LegacyFile>, probe: Probe, f: LegacyFile)
    requires Orderly(plan) && Finished(d0, d, plan) && IsPlanOf(plan, files, probe) && f in files && !f.deleted
    ensures LiveRowIsThere(d, f, probe)
  {
    LiveAndDeleted(files);
    var i :| 0 <= i < |Live(files)| && Live(files)[i] == f;
    HeadArrives(d, plan, i);
  }

  lemma DeletedRowArrives(d0: Db, d: Db, plan: Plan, files: seq<LegacyFile>, probe: Probe, f: LegacyFile)
    requires Orderly(plan) && Finished(d0, d, plan) && IsPlanOf(plan, files, probe) && f in files && f.deleted
    ensures DeletedRowIsThere(d, f)
  {
    LiveAndDeleted(files);
    var i :| 0 <= i < |Deleted(files)| && Deleted(files)[i] == f;
    TombArrives(d, plan, i);
  }

  lemma HeadArrives(d: Db, plan: Plan, i: nat)
    requires DistinctIds(plan) && HeadsFit(plan, d.heads) && HeadsAll(plan, d.heads) && i < |plan.heads|
    requires LedgerFits(plan, d.ledger) && LedgerAll(plan, d.ledger)
    ensures var h := plan.heads[i];
            h.fileId in d.heads && d.heads[h.fileId] == h && h.fileId in d.ledger &&
            d.ledger[h.fileId] == LedgerRow(true, h.createdAt, 0)
  {
    var h := plan.heads[i];
    assert WantsHead(plan, d.heads[h.fileId]);
    assert WantsRow(plan, h.fileId, d.ledger[h.fileId]) by { assert IsHeadId(plan, h.fileId); }
    OneRow(plan, h.fileId, d.ledger[h.fileId], LedgerRow(true, h.createdAt, 0));
  }

  lemma TombArrives(d: Db, plan: Plan, i: nat)
    requires DistinctIds(plan) && TombsFitIn(plan, d.tombs) && TombsAll(plan, d.tombs) && i < |plan.tombs|
    requires LedgerFits(plan, d.ledger) && LedgerAll(plan, d.ledger)
    ensures var t := plan.tombs[i];
            t.fileId in d.tombs && d.tombs[t.fileId] == t && t.fileId in d.ledger &&
            d.ledger[t.fileId] == LedgerRow(false, t.deletedAt, t.deletedAt)
  {
    var t := plan.tombs[i];
    assert WantsTomb(plan, d.tombs[t.fileId]);
    assert WantsRow(plan, t.fileId, d.ledger[t.fileId]) by { assert IsTombId(plan, t.fileId); }
    OneRow(plan, t.fileId, d.ledger[t.fileId], LedgerRow(false, t.deletedAt, t.deletedAt));
  }

  lemma NoOthersArrive(d0: Db, d: Db, plan: Plan, files: seq<LegacyFile>)
    requires Finished(d0, d, plan) && |plan.heads| == |Live(files)| && |plan.tombs| == |Deleted(files)|
    requires forall i :: 0 <= i < |plan.heads| ==> plan.heads[i].fileId == Live(files)[i].fileId
    requires forall i :: 0 <= i < |plan.tombs| ==> plan.tombs[i].fileId == Deleted(files)[i].fileId
    ensures NothingElseIsThere(d, files)
  {
    LiveAndDeleted(files);
    forall id | id in d.heads ensures exists f :: f in files && !f.deleted && f.fileId == id {
      assert WantsHead(plan, d.heads[id]);
      var i :| 0 <= i < |plan.heads| && plan.heads[i] == d.heads[id];
      assert Live(files)[i] in Live(files);
    }
    forall id | id in d.tombs ensures exists f :: f in files && f.deleted && f.fileId == id {
      assert WantsTomb(plan, d.tombs[id]);
      var i :| 0 <= i < |plan.tombs| && plan.tombs[i] == d.tombs[id];
      assert Deleted(files)[i] in Deleted(files);
    }
  }

  lemma FloorIsExact(plan: Plan, files: seq<LegacyFile>, probe: Probe)
    requires plan.floor == FloorOf(plan.heads) && SameEnvelopes(plan.heads, Live(files), probe)
    ensures plan.floor == Demandable(files, probe)
  {
    AllThirdAre(plan.heads, files, probe);
    SomeEncryptedIs(plan.heads, files, probe);
  }

  ghost predicate SameEnvelopes(heads: seq<Head>, live: seq<LegacyFile>, probe: Probe) {
    |heads| == |live| && forall i :: 0 <= i < |heads| ==> heads[i].envelope == probe.envelope(live[i].contentHash)
  }

  lemma AllThirdAre(heads: seq<Head>, files: seq<LegacyFile>, probe: Probe)
    requires SameEnvelopes(heads, Live(files), probe)
    ensures (exists f :: f in files && !f.deleted) <==> heads != []
    ensures AllAreThird(files, probe) <==> forall i :: 0 <= i < |heads| ==> heads[i].envelope == 3
  {
    LiveAndDeleted(files);
    assert forall i :: 0 <= i < |heads| ==> Live(files)[i] in Live(files);
    if heads != [] { assert Live(files)[0] in files; }
  }

  lemma SomeEncryptedIs(heads: seq<Head>, files: seq<LegacyFile>, probe: Probe)
    requires SameEnvelopes(heads, Live(files), probe)
    ensures SomeIsEncrypted(files, probe) <==> exists i :: 0 <= i < |heads| && 1 <= heads[i].envelope <= 3
  {
    LiveAndDeleted(files);
    if i :| 0 <= i < |heads| && 1 <= heads[i].envelope <= 3 { assert Live(files)[i] in Live(files); }
    if f :| f in files && !f.deleted && 1 <= probe.envelope(f.contentHash) <= 3 {
      var i :| 0 <= i < |Live(files)| && Live(files)[i] == f;
      assert 1 <= heads[i].envelope <= 3;
    }
  }
}
