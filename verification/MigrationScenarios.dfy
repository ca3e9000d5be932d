/** Small disks and old databases, each of which shows one of the failures the migration theorems name. */
module MigrationScenarios {
  import opened Bytes
  import opened Options
  import opened Tables
  import BlobIds = BlobIdMigration
  import opened BlobIdStatus
  import opened PlanV6
  import opened SchemaV6
  import opened ResumeV6
  import opened HistoryV6

  // ---------- blob ids ----------

  function Row(fileId: string, blob: string, contentHash: string): Head {
    Head(fileId, 1, 0, blob, contentHash, 1, 1, 0, fileId, "", fileId, 0, 0, 1, 1)
  }

  /** Keyed names are hashes with a letter in front; the two contents have hashes 1 and 2. */
  ghost predicate Keys(o: Oracle, a: bytes, b: bytes) {
    o.blobName("1") == "k1" && o.blobName("2") == "k2" && o.hash(a) == "1" && o.hash(b) == "2"
  }

  /** Two objects with the same content, one on its bare hash and one on the keyed name already. */
  function HalfWay(a: bytes): BlobIds.Disk {
    BlobIds.Disk(map["x" := Row("x", "1", "1"), "y" := Row("y", "k1", "1")], map[], map["1" := a, "k1" := a], map[])
  }

  lemma HalfWayIsSane(o: Oracle, a: bytes, b: bytes)
    requires Keys(o, a, b)
    ensures var d := HalfWay(a);
            BlobIds.Refs(d.heads, d.versions) == {("1", "1"), ("k1", "1")} &&
              BlobIds.Sane(o, BlobIds.Refs(d.heads, d.versions)) &&
            BlobIds.Held(o, BlobIds.Refs(d.heads, d.versions), d.files) &&
              BlobIds.Readable(o, BlobIds.Refs(d.heads, d.versions), d.files)
  {
    RefsOfTwo(Row("x", "1", "1"), Row("y", "k1", "1"));
    HeldOfTwo(o, ("1", "1"), ("k1", "1"), HalfWay(a).files);
  }

  lemma HeldOfTwo(o: Oracle, r: BlobIds.Ref, q: BlobIds.Ref, files: BlobIds.Files)
    requires r.0 in files && o.hash(files[r.0]) == r.1 && q.0 in files && o.hash(files[q.0]) == q.1
    requires forall x :: x in {r, q} && o.blobName(x.1) in files ==> o.hash(files[o.blobName(x.1)]) == x.1
    ensures BlobIds.Held(o, {r, q}, files) && BlobIds.Readable(o, {r, q}, files)
  {
  }

  lemma RefsOfTwo(h: Head, g: Head)
    requires h.blobId != "" && g.blobId != ""
    ensures BlobIds.Refs(map["x" := h, "y" := g], map[]) == {(h.blobId, h.contentHash), (g.blobId, g.contentHash)}
  {
    var heads := map["x" := h, "y" := g];
    assert "x" in heads && "y" in heads;
    assert BlobIds.HeadRefs(heads) == {(h.blobId, h.contentHash), (g.blobId, g.contentHash)};
  }

  /** Its repointing fails, the rename is undone, and the object on the keyed name has no file. */
  lemma UndoneRenameDangles(o: Oracle, a: bytes, b: bytes)
    requires Keys(o, a, b)
    ensures var d := BlobIds.MigrateOne(o, HalfWay(a), ("1", "1"), BlobIds.RepointFails).0;
            !BlobIds.Readable(o, BlobIds.Refs(d.heads, d.versions), d.files)
  {
    HalfWayIsSane(o, a, b);
    BlobIds.UndoneRename(o, HalfWay(a), ("1", "1"));
  }

  /** Two objects, both on their bare hashes. */
  function Untouched(a: bytes, b: bytes): BlobIds.Disk {
    BlobIds.Disk(map["x" := Row("x", "1", "1"), "y" := Row("y", "2", "2")], map[], map["1" := a, "2" := b], map[])
  }

  lemma UntouchedIsSane(o: Oracle, a: bytes, b: bytes)
    requires Keys(o, a, b)
    ensures var d := Untouched(a, b);
            BlobIds.Refs(d.heads, d.versions) == {("1", "1"), ("2", "2")} &&
              BlobIds.Sane(o, BlobIds.Refs(d.heads, d.versions)) &&
            BlobIds.Held(o, BlobIds.Refs(d.heads, d.versions), d.files) && BlobIdStatus.Live(d)
  {
    RefsOfTwo(Row("x", "1", "1"), Row("y", "2", "2"));
    HeldOfTwo(o, ("1", "1"), ("2", "2"), Untouched(a, b).files);
    assert "x" in Untouched(a, b).heads;
  }

  lemma SecondIsStruck(o: Oracle, a: bytes, b: bytes, order: seq<BlobIds.Ref>, strike: BlobIds.Strike)
    requires Keys(o, a, b) && order == [("1", "1"), ("2", "2")] && strike != BlobIds.NothingStrikes
    ensures FirstStruck(o, order, map[order[1] := strike], 1) && IsBare(o, order[0])
    ensures BlobIds.StrikeAt(map[order[1] := strike], order[1]) == strike
  {
  }

  /** The first blob goes through and the second cannot be registered: the status says that nothing
      is left to do. */
  lemma StatusMisses(o: Oracle, a: bytes, b: bytes, order: seq<BlobIds.Ref>)
    requires Keys(o, a, b) && order == [("1", "1"), ("2", "2")]
    ensures var end := BlobIds.RunOver(o, Untouched(a, b), BlobIds.Report(2, 0, 0, 0), order,
              map[order[1] := BlobIds.EnqueueFails]).disk;
            Remaining(o, end) && !BlobIds.Needs(end)
  {
    UntouchedIsSane(o, a, b);
    SecondIsStruck(o, a, b, order, BlobIds.EnqueueFails);
    assert |order| == 2;
    StatusAfterAttempt(o, Untouched(a, b), [], order, map[order[1] := BlobIds.EnqueueFails]);
  }

  /** The run dies over the second blob, its rows repointed: the status asks for a migration though
      nothing is left. */
  lemma StatusAsks(o: Oracle, a: bytes, b: bytes, order: seq<BlobIds.Ref>)
    requires Keys(o, a, b) && order == [("1", "1"), ("2", "2")]
    ensures var end := BlobIds.RunOver(o, Untouched(a, b), BlobIds.Report(2, 0, 0, 0), order,
              map[order[1] := BlobIds.DiesRepointed]).disk;
            BlobIds.Needs(end) && !Remaining(o, end)
  {
    UntouchedIsSane(o, a, b);
    SecondIsStruck(o, a, b, order, BlobIds.DiesRepointed);
    assert |order| == 2;
    StatusAfterAttempt(o, Untouched(a, b), [], order, map[order[1] := BlobIds.DiesRepointed]);
  }

  // ---------- schema 6 ----------

  /** A row whose id is empty. */
  function Nameless(deleted: bool): LegacyFile {
    LegacyFile("p", "", deleted, 1, "", 0, 0, "p", "", 0, 1, 1)
  }

  ghost predicate OneId(random: seq<string>) {
    |random| == 1 && IsHex32(random[0])
  }

  lemma NamelessIsBad(deleted: bool, random: seq<string>)
    requires OneId(random)
    ensures OwnPaths([Nameless(deleted)]) && Fresh(random, [Nameless(deleted)]) && !GoodIds([Nameless(deleted)])
  {
    assert !IsHex32("");
    assert [Nameless(deleted)][0].fileId == "";
    assert random[0] != "";
  }

  /** One live row without an id: some cut leaves the migration where no second attempt helps. */
  lemma NamelessRowDoesNotResume(d0: Db, probe: Probe, random: seq<string>, other: seq<string>) returns (cut: Cut)
    requires Unmigrated(d0) && OneId(random) && OneId(other) && random[0] != other[0]
    ensures !Resumes(d0, [Nameless(false)], [], probe, random, cut, other)
  {
    NamelessIsBad(false, random);
    NamelessIsBad(false, other);
    ResumesExactlyWithGoodIds(d0, [Nameless(false)], [], probe, random, other);
    cut :| !Resumes(d0, [Nameless(false)], [], probe, random, cut, other);
  }

  /** One deleted row without an id: cut once it has moved, and started again, there are two
      tombstones of its path. */
  lemma NamelessDeletionIsDoubled(d0: Db, probe: Probe, random: seq<string>, other: seq<string>)
    requires Unmigrated(d0) && OneId(random) && OneId(other) && random[0] != other[0]
    ensures var d1 := Attempted(d0, [Nameless(true)], [], probe, random, Some(Cut(2, false)));
            DoubledPath(Attempted(d1, [Nameless(true)], [], probe, other, None).tombs, "p")
  {
    var files, plan := [Nameless(true)], PlanOf([Nameless(true)], [], probe, random);
    NamelessIsBad(true, random);
    NamelessIsBad(true, other);
    OneTombstone(probe, random);
    DrawsExactlyForBadIds(files, [], probe, random);
    assert plan.tombs[0].fileId in random;
    ReplacedTombstonesAreDoubled(d0, files, [], probe, 0, random, other);
  }

  lemma OneTombstone(probe: Probe, random: seq<string>)
    ensures var plan := PlanOf([Nameless(true)], [], probe, random);
            plan.heads == [] && |plan.tombs| == 1 &&
            plan.tombs[0].lastPseudonym == "p"
  {
    var files := [Nameless(true)];
    RowsAreConserved(files, [], probe, random);
    assert files[..0] == [] && PlanV6.Live([]) == [] && Deleted([]) == [];
    assert PlanV6.Live(files) == [] && Deleted(files) == files;
  }

  // ---------- history of no object ----------

  function Id(letter: char): string { seq(32, i => letter) }

  /** One live row, and a history row of its path that has another well formed id. */
  function Kept(): LegacyFile {
    LegacyFile("p", Id('a'), false, 2, "", 0, 0, "p", "", 0, 1, 1)
  }

  function Strayed(): LegacyVersion {
    LegacyVersion("p", Id('b'), 1, "", "", 0, 0, Upsert, "", 1)
  }

  /** The migration runs to its end without a cut: the history row is planned, no orphan or conflict
      is counted, and the new table does not have it. */
  lemma StrayHistoryIsLost(d0: Db, probe: Probe, random: seq<string>)
    requires Unmigrated(d0)
    ensures var files, versions := [Kept()], [Strayed()];
            var plan, d := PlanOf(files, versions, probe, random), Attempted(d0, files, versions, probe, random, None);
            !Needs(d) && Planned(plan, (Id('b'), 1)) && plan.history.orphans == 0 && plan.history.conflicts == 0 &&
            (Id('b'), 1) !in d.versions
  {
    var files, versions := [Kept()], [Strayed()];
    var plan, d := PlanOf(files, versions, probe, random), Attempted(d0, files, versions, probe, random, None);
    assert IsHex32(Id('a')) && IsHex32(Id('b'));
    assert Id('a')[0] != Id('b')[0];
    assert Strayed() in versions;
    StopAnywhereRunAgain(d0, files, versions, probe, [Attempt(random, None)], random);
    StrayHistoryIsLeftBehind(d0, d, files, versions, probe, random, Strayed());
    assert |plan.versions| > 0;
  }
}
