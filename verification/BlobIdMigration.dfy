/**
 Renaming every stored blob from its bare content hash to the keyed blob name.  Files are
 renamed first and the rows repointed after, one blob at a time, so a crash can leave a file
 renamed with its rows still on the old name; running the migration again repairs that.
 */
module BlobIdMigration {
  import opened Bytes
  import opened Options
  import opened Tables

  type Files = map<string, bytes>

  /** A blob id together with the content hash of the rows that use it. */
  type Ref = (string, string)

  datatype Disk = Disk(heads: map<string, Head>, versions: map<VersionKey, Version>, files: Files, journal: map<string,
    Stage>)

  /** What strikes the migration of one blob. */
  datatype Strike =
    | NothingStrikes | EnqueueFails | DiesEnqueued | RenameFails | DiesRenamed
    | RepointFails | UndoFails | DiesRepointed

  /** How the migration of one blob ends.  Only `Stopped` ends the run. */
  datatype Outcome = SkippedOne | RenamedOne | FailedOne | Stopped

  datatype Report = Report(planned: nat, renamed: nat, skipped: nat, failed: nat)

  function HeadRefs(heads: map<string, Head>): set<Ref> {
    set f | f in heads && heads[f].blobId != "" :: (heads[f].blobId, heads[f].contentHash)
  }

  function VersionRefs(versions: map<VersionKey, Version>): set<Ref> {
    set k | k in versions && versions[k].blobId != "" :: (versions[k].blobId, versions[k].contentHash)
  }

  function Refs(heads: map<string, Head>, versions: map<VersionKey, Version>): set<Ref> {
    HeadRefs(heads) + VersionRefs(versions)
  }

  // ---------- one blob ----------

  /** Idempotent: done already when only the new name is there. */
  function RenameFile(files: Files, src: string, dst: string): Option<Files> {
    if src !in files then (if dst in files then Some(files) else None)
    else if dst in files then Some(files - {src})
    else Some((files - {src})[dst := files[src]])
  }

  function Repointed(h: Head, src: string, dst: string): Head {
    if h.blobId == src then h.(blobId := dst) else h
  }

  function RepointedVersion(v: Version, src: string, dst: string): Version {
    if v.blobId == src then v.(blobId := dst) else v
  }

  function RepointHeads(heads: map<string, Head>, src: string, dst: string): map<string, Head> {
    map f | f in heads :: Repointed(heads[f], src, dst)
  }

  function RepointVersions(versions: map<VersionKey, Version>, src: string, dst: string): map<VersionKey, Version> {
    map k | k in versions :: RepointedVersion(versions[k], src, dst)
  }

  function Repoint(d: Disk, src: string, dst: string): Disk {
    d.(heads := RepointHeads(d.heads, src, dst), versions := RepointVersions(d.versions, src, dst))
  }

  function Enqueued(journal: map<string, Stage>, blob: string): map<string, Stage> {
    if blob in journal then journal else journal[blob := Pending]
  }

  function MigrateOne(o: Oracle, d: Disk, x: Ref, strike: Strike): (Disk, Outcome) {
    var dst := o.blobName(x.1);
    if dst == x.0 then (d, SkippedOne)
    else if strike == EnqueueFails then (d, Stopped)
    else
      var d0 := d.(journal := Enqueued(d.journal, x.0));
      var renamed := RenameFile(d.files, x.0, dst);
      if strike == DiesEnqueued then (d0, Stopped)
      else if strike == RenameFails || renamed.None? then (d0.(journal := d0.journal[x.0 := Failed]), FailedOne)
      else AfterRename(d0.(files := renamed.value), x.0, dst, strike)
  }

  /** The file is renamed; the rows follow, or the rename is undone. */
  function AfterRename(d: Disk, src: string, dst: string, strike: Strike): (Disk, Outcome) {
    match strike
    case DiesRenamed => (d, Stopped)
    case UndoFails => (d, Stopped)
    case RepointFails =>
      var undone := RenameFile(d.files, dst, src);
      if undone.None? then (d, Stopped)
      else (d.(files := undone.value, journal := d.journal[src := Failed]), FailedOne)
    case DiesRepointed => (Repoint(d, src, dst), Stopped)
    case _ => (Repoint(d, src, dst).(journal := d.journal[src := Done]), RenamedOne)
  }

  function Counted(report: Report, outcome: Outcome): Report {
    match outcome
    case SkippedOne => report.(skipped := report.skipped + 1)
    case RenamedOne => report.(renamed := report.renamed + 1)
    case FailedOne => report.(failed := report.failed + 1)
    case Stopped => report
  }

  datatype Ending = Ending(disk: Disk, report: Report, stopped: bool)

  /** A run over a list of references, up to the first one that stops it. */
  function RunOver(o: Oracle, d: Disk, report: Report, order: seq<Ref>, strikes: map<Ref, Strike>): Ending
    decreases |order|
  {
    if order == [] then Ending(d, report, false)
    else
      var (d1, outcome) := MigrateOne(o, d, order[0], StrikeAt(strikes, order[0]));
      if outcome == Stopped then Ending(d1, report, true)
         else RunOver(o, d1, Counted(report, outcome), order[1..], strikes)
  }

  function StrikeAt(strikes: map<Ref, Strike>, x: Ref): Strike {
    if x in strikes then strikes[x] else NothingStrikes
  }

  ghost predicate Enumerates(order: seq<Ref>, refs: set<Ref>) {
    (forall r :: r in order <==> r in refs) && forall i, j :: 0 <= i < j < |order| ==> order[i] != order[j]
  }

  class Migrator {
    const o: Oracle
    var heads: map<string, Head>
    var versions: map<VersionKey, Version>
    var files: Files
    var journal: map<string, Stage>

    function State(): Disk
      reads this
    {
      Disk(heads, versions, files, journal)
    }

    constructor (o: Oracle, d: Disk)
      ensures this.o == o && State() == d
    {
      this.o := o;
      heads, versions, files, journal := d.heads, d.versions, d.files, d.journal;
    }

    /** Afterwards the content is under the new name and under no other, and asking again changes
        nothing; it fails only when it is under neither. */
    method RenameBlob(src: string, dst: string) returns (ok: bool)
      modifies this`files
      ensures ok == RenameFile(old(files), src, dst).Some?
      ensures files == if ok then RenameFile(old(files), src, dst).value else old(files)
      ensures ok <==> src in old(files) || dst in old(files)
      ensures ok && src != dst ==>
                dst in files && src !in files &&
                files[dst] == old(files)[if dst in old(files) then dst else src]
      ensures ok && src != dst ==> RenameFile(files, src, dst) == Some(files)
      ensures forall b :: b != src && b != dst ==>
              (b in files <==> b in old(files)) && (b in files ==> files[b] == old(files)[b])
    {
      if src !in files { return dst in files; }
      if dst in files {
        files := files - {src};
        return true;
      }
      files := (files - {src})[dst := files[src]];
      return true;
    }

    /** Every row that uses a blob, in one transaction: no row is left on the old name, and the
        references are those there were, with the new name for the old one. */
    method RepointBlobReferences(src: string, dst: string)
      modifies this`heads, this`versions
      ensures State() == Repoint(old(State()), src, dst)
      ensures src != dst ==> !Referenced(heads, versions, src)
      ensures src != "" && dst != "" ==> Refs(heads, versions) == Swap(Refs(old(heads), old(versions)), src, dst)
    {
      if src != "" && dst != "" { RepointSwaps(State(), src, dst); }
      heads := RepointHeads(heads, src, dst);
      versions := RepointVersions(versions, src, dst);
    }

    method One(x: Ref, strike: Strike) returns (outcome: Outcome)
      modifies this
      ensures (State(), outcome) == MigrateOne(o, old(State()), x, strike)
    {
      var dst := o.blobName(x.1);
      if dst == x.0 { return SkippedOne; }
      if strike == EnqueueFails { return Stopped; }
      if x.0 !in journal { journal := journal[x.0 := Pending]; }
      if strike == DiesEnqueued { return Stopped; }
      var ok := false;
      if strike != RenameFails { ok := RenameBlob(x.0, dst); }
      if !ok {
        journal := journal[x.0 := Stage.Failed];
        return FailedOne;
      }
      outcome := FollowRename(x.0, dst, strike);
    }

    method FollowRename(src: string, dst: string, strike: Strike) returns (outcome: Outcome)
      modifies this
      ensures (State(), outcome) == AfterRename(old(State()), src, dst, strike)
    {
      if strike == DiesRenamed || strike == UndoFails { return Stopped; }
      if strike == RepointFails {
        var undone := RenameBlob(dst, src);
        if !undone { return Stopped; }
        journal := journal[src := Stage.Failed];
        return FailedOne;
      }
      RepointBlobReferences(src, dst);
      if strike == DiesRepointed { return Stopped; }
      journal := journal[src := Stage.Done];
      return RenamedOne;
    }

    method MigrateBlobIDs(confirm: bool, strikes: map<Ref, Strike>)
      returns (report: Report, stopped: bool, ghost order: seq<Ref>)
      modifies this
      ensures Enumerates(order, Refs(old(heads), old(versions)))
      ensures !confirm ==> State() == old(State()) && !stopped && report == Report(|order|, 0, 0, 0)
      ensures confirm ==>
                Ending(State(), report, stopped) ==
                RunOver(o, old(State()), Report(|order|, 0, 0, 0), order, strikes)
    {
      var refs := ListRefs(Refs(heads, versions));
      order := refs;
      report, stopped := Report(|refs|, 0, 0, 0), false;
      if !confirm { return; }
      ghost var end := RunOver(o, State(), report, refs, strikes);
      for i := 0 to |refs|
        invariant end == RunOver(o, State(), report, refs[i..], strikes)
      {
        var x := refs[i];
        var outcome := One(x, StrikeAt(strikes, x));
        assert refs[i..][0] == x && refs[i..][1..] == refs[i + 1..];
        if outcome == Stopped { return report, true, order; }
        match outcome
        case SkippedOne => report := report.(skipped := report.skipped + 1);
        case RenamedOne => report := report.(renamed := report.renamed + 1);
        case FailedOne => report := report.(failed := report.failed + 1);
        case Stopped =>
      }
    }

    method ListRefs(all: set<Ref>) returns (refs: seq<Ref>)
      ensures Enumerates(refs, all)
    {
      refs := [];
      var rest := all;
      while rest != {}
        invariant rest <= all && forall r :: r in refs <==> r in all && r !in rest
        invariant forall i, j :: 0 <= i < j < |refs| ==> refs[i] != refs[j]
        decreases rest
      {
        var r :| r in rest;
        refs := refs + [r];
        rest := rest - {r};
      }
    }

    /** What the status command reports. */
    method NeedsBlobIDMigration() returns (need: bool)
      ensures need == Needs(State())
    {
      if b :| b in journal && (journal[b] == Pending || journal[b] == Stage.Failed) { return true; }
      var done := set b | b in journal && journal[b] == Stage.Done;
      assert forall b :: b in journal && journal[b] == Stage.Done ==> b in done;
      return (exists f :: f in heads && heads[f].blobId != "") && done == {};
    }
  }

  predicate Needs(d: Disk) {
    (exists b :: b in d.journal && (d.journal[b] == Pending || d.journal[b] == Failed)) ||
    ((exists f :: f in d.heads && d.heads[f].blobId != "") && forall b :: b in d.journal ==> d.journal[b] != Done)
  }

  // ---------- what holds at every point, in every run ----------

  /** Every blob is named by the bare hash of its content or by its keyed name, and the keyed
      names are names of their own. */
  ghost predicate Sane(o: Oracle, refs: set<Ref>) {
    (forall r :: r in refs ==> r.0 == r.1 || r.0 == o.blobName(r.1)) &&
    (forall r :: r in refs ==> r.0 != "" && o.blobName(r.1) != "") &&
    (forall r, q :: r in refs && q in refs && r.0 == q.0 ==> r.1 == q.1) &&
    (forall r, q :: r in refs && q in refs && r.0 == o.blobName(q.1) ==> r.1 == q.1) &&
    (forall r, q :: r in refs && q in refs && o.blobName(r.1) == o.blobName(q.1) ==> r.1 == q.1)
  }

  /** A file under one of the two names of a reference has the right content. */
  ghost predicate RightContent(o: Oracle, files: Files, r: Ref) {
    (r.0 in files ==> o.hash(files[r.0]) == r.1) && (o.blobName(r.1) in files ==> o.hash(files[o.blobName(r.1)]) == r.1)
  }

  /** Some name has the content of a reference: its own, the keyed one, or for a reference that
      is on the keyed name already, one another reference still uses for the same content. */
  ghost predicate Somewhere(o: Oracle, refs: set<Ref>, files: Files, r: Ref) {
    r.0 in files || o.blobName(r.1) in files ||
    (r.0 == o.blobName(r.1) && exists q :: q in refs && q.1 == r.1 && q.0 in files)
  }

  ghost predicate Held(o: Oracle, refs: set<Ref>, files: Files) {
    forall r :: r in refs ==> RightContent(o, files, r) && Somewhere(o, refs, files, r)
  }

  /** Every reference is stored, under its own name, with its content. */
  ghost predicate Readable(o: Oracle, refs: set<Ref>, files: Files) {
    forall r :: r in refs ==> r.0 in files && o.hash(files[r.0]) == r.1
  }

  function Swap(refs: set<Ref>, src: string, dst: string): set<Ref> {
    set r | r in refs :: if r.0 == src then (dst, r.1) else r
  }

  lemma HeadsSwap(heads: map<string, Head>, src: string, dst: string)
    requires src != "" && dst != ""
    ensures HeadRefs(RepointHeads(heads, src, dst)) == Swap(HeadRefs(heads), src, dst)
  {
    var heads' := RepointHeads(heads, src, dst);
    forall r | r in HeadRefs(heads) ensures (if r.0 == src then (dst, r.1) else r) in HeadRefs(heads') {
      var f :| f in heads && heads[f].blobId != "" && r == (heads[f].blobId, heads[f].contentHash);
      assert f in heads' && heads'[f].blobId != "";
    }
    forall r | r in HeadRefs(heads') ensures r in Swap(HeadRefs(heads), src, dst) {
      var f :| f in heads' && heads'[f].blobId != "" && r == (heads'[f].blobId, heads'[f].contentHash);
      assert (heads[f].blobId, heads[f].contentHash) in HeadRefs(heads);
    }
  }

  lemma VersionsSwap(versions: map<VersionKey, Version>, src: string, dst: string)
    requires src != "" && dst != ""
    ensures VersionRefs(RepointVersions(versions, src, dst)) == Swap(VersionRefs(versions), src, dst)
  {
    var versions' := RepointVersions(versions, src, dst);
    forall r | r in VersionRefs(versions) ensures (if r.0 == src then (dst, r.1) else r) in VersionRefs(versions') {
      var k :| k in versions && versions[k].blobId != "" && r == (versions[k].blobId, versions[k].contentHash);
      assert k in versions' && versions'[k].blobId != "";
    }
    forall r | r in VersionRefs(versions') ensures r in Swap(VersionRefs(versions), src, dst) {
      var k :| k in versions' && versions'[k].blobId != "" && r == (versions'[k].blobId, versions'[k].contentHash);
      assert (versions[k].blobId, versions[k].contentHash) in VersionRefs(versions);
    }
  }

  lemma RepointSwaps(d: Disk, src: string, dst: string)
    requires src != "" && dst != ""
    ensures Refs(RepointHeads(d.heads, src, dst), RepointVersions(d.versions, src, dst)) ==
            Swap(Refs(d.heads, d.versions), src, dst)
  {
    HeadsSwap(d.heads, src, dst);
    VersionsSwap(d.versions, src, dst);
  }

  lemma SwapIs(refs: set<Ref>, x: Ref, dst: string)
    requires x in refs && forall r :: r in refs && r.0 == x.0 ==> r == x
    ensures Swap(refs, x.0, dst) == refs - {x} + {(dst, x.1)}
  {
    var refs' := Swap(refs, x.0, dst);
    assert (dst, x.1) in refs' by { assert (if x.0 == x.0 then (dst, x.1) else x) in refs'; }
    forall r | r in refs - {x} ensures r in refs' {
      assert r == if r.0 == x.0 then (dst, r.1) else r;
    }
  }

  lemma SwapKeepsSane(o: Oracle, refs: set<Ref>, x: Ref)
    requires Sane(o, refs) && x in refs
    ensures Sane(o, refs - {x} + {(o.blobName(x.1), x.1)})
    ensures Swap(refs, x.0, o.blobName(x.1)) == refs - {x} + {(o.blobName(x.1), x.1)}
  {
    SwapIs(refs, x, o.blobName(x.1));
  }

  lemma RenameKeepsHeld(o: Oracle, refs: set<Ref>, files: Files, x: Ref)
    requires Sane(o, refs) && Held(o, refs, files) && x in refs && x.0 != o.blobName(x.1)
    ensures var r := RenameFile(files, x.0, o.blobName(x.1));
            r.Some? && Held(o, refs, r.value) && o.blobName(x.1) in r.value && x.0 !in r.value
    ensures Held(o, refs - {x} + {(o.blobName(x.1), x.1)}, RenameFile(files, x.0, o.blobName(x.1)).value)
  {
  }

  /** Undoing a rename loses nothing either: the content is back under the old name. */
  lemma UndoKeepsHeld(o: Oracle, refs: set<Ref>, files: Files, x: Ref)
    requires Sane(o, refs) && Held(o, refs, files) && x in refs && x.0 != o.blobName(x.1)
    requires o.blobName(x.1) in files && x.0 !in files
    ensures RenameFile(files, o.blobName(x.1), x.0).Some? &&
            Held(o, refs, RenameFile(files, o.blobName(x.1), x.0).value)
  {
  }

  // ---------- runs ----------

  /** Rows as they were, but for the blob ids, which are the old one or the keyed one. */
  ghost predicate SameHeads(o: Oracle, heads0: map<string, Head>, heads: map<string, Head>) {
    heads.Keys == heads0.Keys &&
    forall f :: f in heads0 ==>
      heads[f] == heads0[f].(blobId := heads[f].blobId) &&
      Follows(o, heads0[f].blobId, heads[f].blobId, heads0[f].contentHash)
  }

  ghost predicate SameVersions(o: Oracle, versions0: map<VersionKey, Version>, versions: map<VersionKey, Version>) {
    versions.Keys == versions0.Keys &&
    forall k :: k in versions0 ==>
      versions[k] == versions0[k].(blobId := versions[k].blobId) &&
      Follows(o, versions0[k].blobId, versions[k].blobId, versions0[k].contentHash)
  }

  ghost predicate Follows(o: Oracle, was: string, blob: string, contentHash: string) {
    blob == was || (was != "" && blob == o.blobName(contentHash))
  }

  /** A reference is an old one, or the keyed one of an old one. */
  ghost predicate SameRefs(o: Oracle, refs0: set<Ref>, refs: set<Ref>) {
    forall r :: r in refs ==> r in refs0 || (r.0 == o.blobName(r.1) && exists q :: q in refs0 && q.1 == r.1)
  }

  /** Files that no reference is about stay.  A name that no reference uses any more, and that is
      not a keyed name, is gone. */
  ghost predicate SameFiles(o: Oracle, refs0: set<Ref>, files0: Files, refs: set<Ref>, files: Files) {
    OthersStay(o, refs0, files0, files) && NoOldNames(o, refs0, refs, files)
  }

  ghost predicate OthersStay(o: Oracle, refs0: set<Ref>, files0: Files, files: Files) {
    forall b :: !About(o, refs0, b) ==> (b in files <==> b in files0) && (b in files ==> files[b] == files0[b])
  }

  ghost predicate NoOldNames(o: Oracle, refs0: set<Ref>, refs: set<Ref>, files: Files) {
    forall r :: r in refs0 && r.0 in files ==> r in refs || r.0 == o.blobName(r.1)
  }

  ghost predicate About(o: Oracle, refs: set<Ref>, b: string) {
    exists r :: r in refs && (b == r.0 || b == o.blobName(r.1))
  }

  ghost predicate Progress(o: Oracle, refs0: set<Ref>, files0: Files, refs: set<Ref>, files: Files) {
    Sane(o, refs0) && Sane(o, refs) && Held(o, refs, files) && SameRefs(o, refs0, refs) &&
      SameFiles(o, refs0, files0, refs, files)
  }

  /** Some attempts into the migration of `d0`. */
  ghost predicate UnderWay(o: Oracle, d0: Disk, d: Disk) {
    OnTheWay(o, d0, d.heads, d.versions, d.files)
  }

  ghost predicate OnTheWay(o: Oracle, d0: Disk, heads: map<string, Head>, versions: map<VersionKey, Version>,
          files: Files)
  {
    SameHeads(o, d0.heads, heads) && SameVersions(o, d0.versions, versions) &&
    Progress(o, Refs(d0.heads, d0.versions), d0.files, Refs(heads, versions), files)
  }

  lemma StartsUnderWay(o: Oracle, d: Disk)
    requires Sane(o, Refs(d.heads, d.versions)) && Held(o, Refs(d.heads, d.versions), d.files)
    ensures UnderWay(o, d, d)
  {
  }

  lemma RepointKeepsHeads(o: Oracle, heads0: map<string, Head>, heads: map<string, Head>, x: Ref)
    requires SameHeads(o, heads0, heads) && x.0 != "" && forall r :: r in HeadRefs(heads) && r.0 == x.0 ==> r.1 == x.1
    ensures SameHeads(o, heads0, RepointHeads(heads, x.0, o.blobName(x.1)))
  {
    forall f | f in heads && heads[f].blobId == x.0 ensures heads[f].contentHash == x.1 {
      assert (heads[f].blobId, heads[f].contentHash) in HeadRefs(heads);
    }
  }

  lemma RepointKeepsVersions(o: Oracle, versions0: map<VersionKey, Version>, versions: map<VersionKey, Version>, x: Ref)
    requires SameVersions(o, versions0, versions) && x.0 != ""
    requires forall r :: r in VersionRefs(versions) && r.0 == x.0 ==> r.1 == x.1
    ensures SameVersions(o, versions0, RepointVersions(versions, x.0, o.blobName(x.1)))
  {
    forall k | k in versions && versions[k].blobId == x.0 ensures versions[k].contentHash == x.1 {
      assert (versions[k].blobId, versions[k].contentHash) in VersionRefs(versions);
    }
  }

  lemma RepointKeepsRows(o: Oracle, d0: Disk, d: Disk, x: Ref)
    requires Sane(o, Refs(d.heads, d.versions)) && x in Refs(d.heads, d.versions)
    requires SameHeads(o, d0.heads, d.heads) && SameVersions(o, d0.versions, d.versions)
    ensures SameHeads(o, d0.heads, RepointHeads(d.heads, x.0, o.blobName(x.1)))
    ensures SameVersions(o, d0.versions, RepointVersions(d.versions, x.0, o.blobName(x.1)))
  {
    var refs := Refs(d.heads, d.versions);
    assert forall r :: r in HeadRefs(d.heads) ==> r in refs;
    assert forall r :: r in VersionRefs(d.versions) ==> r in refs;
    RepointKeepsHeads(o, d0.heads, d.heads, x);
    RepointKeepsVersions(o, d0.versions, d.versions, x);
  }

  /** Moving the content of a reference between its two names. */
  lemma MovedKeepsFiles(o: Oracle, refs0: set<Ref>, files0: Files, refs: set<Ref>, files: Files, x: Ref, src: string,
          dst: string)
    requires Sane(o, refs0) && SameRefs(o, refs0, refs) && SameFiles(o, refs0, files0, refs, files) && x in refs
    requires (src == x.0 && dst == o.blobName(x.1)) || (src == o.blobName(x.1) && dst == x.0)
    requires RenameFile(files, src, dst).Some?
    ensures SameFiles(o, refs0, files0, refs, RenameFile(files, src, dst).value)
  {
    MoveIsAbout(o, refs0, refs, x, src, dst);
    OldNamesStayGone(o, refs0, refs, files, x, src, dst);
  }

  lemma MoveIsAbout(o: Oracle, refs0: set<Ref>, refs: set<Ref>, x: Ref, src: string, dst: string)
    requires SameRefs(o, refs0, refs) && x in refs
    requires (src == x.0 && dst == o.blobName(x.1)) || (src == o.blobName(x.1) && dst == x.0)
    ensures About(o, refs0, src) && About(o, refs0, dst)
  {
    var q :| q in refs0 && q.1 == x.1 && (q == x || x.0 == o.blobName(x.1));
  }

  lemma OldNamesStayGone(o: Oracle, refs0: set<Ref>, refs: set<Ref>, files: Files, x: Ref, src: string, dst: string)
    requires Sane(o, refs0) && SameRefs(o, refs0, refs) && NoOldNames(o, refs0, refs, files) && x in refs
    requires (src == x.0 && dst == o.blobName(x.1)) || (src == o.blobName(x.1) && dst == x.0)
    requires RenameFile(files, src, dst).Some?
    ensures NoOldNames(o, refs0, refs, RenameFile(files, src, dst).value)
  {
    var files' := RenameFile(files, src, dst).value;
    var q :| q in refs0 && q.1 == x.1 && (q == x || x.0 == o.blobName(x.1));
    forall r | r in refs0 && r.0 in files' && r.0 !in files ensures r in refs || r.0 == o.blobName(r.1) {
      assert r.0 == dst;
    }
  }

  lemma RepointKeepsProgress(o: Oracle, refs0: set<Ref>, files0: Files, refs: set<Ref>, files: Files, x: Ref)
    requires Progress(o, refs0, files0, refs, files) && x in refs && x.0 != o.blobName(x.1)
    requires o.blobName(x.1) in files && x.0 !in files
    ensures Progress(o, refs0, files0, refs - {x} + {(o.blobName(x.1), x.1)}, files)
  {
    SwapKeepsSane(o, refs, x);
  }

  /** The keyed name gets the file. */
  lemma FileMoves(o: Oracle, d0: Disk, d: Disk, x: Ref) returns (files: Files)
    requires UnderWay(o, d0, d) && x in Refs(d.heads, d.versions) && x.0 != o.blobName(x.1)
    ensures RenameFile(d.files, x.0, o.blobName(x.1)) == Some(files) && o.blobName(x.1) in files && x.0 !in files
    ensures OnTheWay(o, d0, d.heads, d.versions, files)
  {
    var refs0, refs, dst := Refs(d0.heads, d0.versions), Refs(d.heads, d.versions), o.blobName(x.1);
    RenameKeepsHeld(o, refs, d.files, x);
    files := RenameFile(d.files, x.0, dst).value;
    MovedKeepsFiles(o, refs0, d0.files, refs, d.files, x, x.0, dst);
  }

  /** The old name gets it back. */
  lemma FileMovesBack(o: Oracle, d0: Disk, d: Disk, x: Ref) returns (files: Files)
    requires UnderWay(o, d0, d) && x in Refs(d.heads, d.versions) && x.0 != o.blobName(x.1)
    requires o.blobName(x.1) in d.files && x.0 !in d.files
    ensures RenameFile(d.files, o.blobName(x.1), x.0) == Some(files)
    ensures OnTheWay(o, d0, d.heads, d.versions, files)
  {
    var refs0, refs, dst := Refs(d0.heads, d0.versions), Refs(d.heads, d.versions), o.blobName(x.1);
    UndoKeepsHeld(o, refs, d.files, x);
    files := RenameFile(d.files, dst, x.0).value;
    MovedKeepsFiles(o, refs0, d0.files, refs, d.files, x, dst, x.0);
  }

  lemma RowsFollow(o: Oracle, d0: Disk, d: Disk, x: Ref)
    requires UnderWay(o, d0, d) && x in Refs(d.heads, d.versions) && x.0 != o.blobName(x.1)
    requires o.blobName(x.1) in d.files && x.0 !in d.files
    ensures OnTheWay(o, d0, RepointHeads(d.heads, x.0, o.blobName(x.1)),
              RepointVersions(d.versions, x.0, o.blobName(x.1)), d.files)
    ensures Refs(RepointHeads(d.heads, x.0, o.blobName(x.1)), RepointVersions(d.versions, x.0, o.blobName(x.1))) ==
            Refs(d.heads, d.versions) - {x} + {(o.blobName(x.1), x.1)}
  {
    var refs := Refs(d.heads, d.versions);
    RepointSwaps(d, x.0, o.blobName(x.1));
    SwapKeepsSane(o, refs, x);
    RepointKeepsRows(o, d0, d, x);
    RepointKeepsProgress(o, Refs(d0.heads, d0.versions), d0.files, refs, d.files, x);
  }

  function Parts(d: Disk): (map<string, Head>, map<VersionKey, Version>, Files) {
    (d.heads, d.versions, d.files)
  }

  /** Where one blob's migration can end: before the rename, after it, with it undone, or with
      the rows repointed. */
  lemma WhereItEnds(o: Oracle, d: Disk, x: Ref, strike: Strike, files: Files, back: Files)
    requires x.0 != o.blobName(x.1)
    requires RenameFile(d.files, x.0, o.blobName(x.1)) == Some(files) &&
             RenameFile(files, o.blobName(x.1), x.0) == Some(back)
    ensures var (d', outcome) := MigrateOne(o, d, x, strike);
            var done := (RepointHeads(d.heads, x.0, o.blobName(x.1)), RepointVersions(d.versions, x.0, o.blobName(x.1)),
              files);
            (Parts(d') == Parts(d) || Parts(d') == (d.heads, d.versions, files) ||
              Parts(d') == (d.heads, d.versions, back) || Parts(d') == done) &&
            (strike == NothingStrikes ==> Parts(d') == done && outcome == RenamedOne)
  {
  }

  /** Whatever strikes it, one blob's migration loses no content and no row. */
  lemma OneKeepsUnderWay(o: Oracle, d0: Disk, d: Disk, x: Ref, strike: Strike)
    requires UnderWay(o, d0, d) && x in Refs(d.heads, d.versions)
    ensures UnderWay(o, d0, MigrateOne(o, d, x, strike).0)
    ensures LeavesOthers(o, Refs(d.heads, d.versions),
              Refs(MigrateOne(o, d, x, strike).0.heads, MigrateOne(o, d, x, strike).0.versions), x)
    ensures strike == NothingStrikes ==>
            MigrateOne(o, d, x, strike).1 == if x.0 == o.blobName(x.1) then SkippedOne else RenamedOne
    ensures strike == NothingStrikes ==>
              Refs(MigrateOne(o, d, x, strike).0.heads, MigrateOne(o, d, x, strike).0.versions) ==
              Refs(d.heads, d.versions) - {x} + {(o.blobName(x.1), x.1)}
  {
    if x.0 == o.blobName(x.1) {
      assert Refs(d.heads, d.versions) - {x} + {x} == Refs(d.heads, d.versions);
    } else {
      var files := FileMoves(o, d0, d, x);
      var d1 := d.(files := files);
      var back := FileMovesBack(o, d0, d1, x);
      RowsFollow(o, d0, d1, x);
      WhereItEnds(o, d, x, strike, files, back);
      var d' := MigrateOne(o, d, x, strike).0;
    }
  }

  /** The other references are where they were; this one is too, or is on its keyed name. */
  ghost predicate LeavesOthers(o: Oracle, refs: set<Ref>, refs': set<Ref>, x: Ref) {
    refs' == refs || refs' == refs - {x} + {(o.blobName(x.1), x.1)}
  }

  ghost predicate Distinct(order: seq<Ref>) {
    forall i, j :: 0 <= i < j < |order| ==> order[i] != order[j]
  }

  ghost predicate AllKeyed(o: Oracle, refs: set<Ref>) {
    forall r :: r in refs ==> r.0 == o.blobName(r.1)
  }

  /** The references of an order are all there, and all others are on their keyed names when
      `rest` says so. */
  ghost predicate Covers(o: Oracle, refs: set<Ref>, order: seq<Ref>, all: bool) {
    Distinct(order) && (forall r :: r in order ==> r in refs) &&
      (all ==> forall r :: r in refs ==> r in order || r.0 == o.blobName(r.1))
  }

  lemma CoversRest(o: Oracle, refs: set<Ref>, refs': set<Ref>, order: seq<Ref>, all: bool)
    requires order != [] && Covers(o, refs, order, all) && LeavesOthers(o, refs, refs', order[0])
    requires all ==> refs' == refs - {order[0]} + {(o.blobName(order[0].1), order[0].1)}
    ensures Covers(o, refs', order[1..], all)
  {
    assert forall r :: r in order[1..] ==> r != order[0] && r in order;
    assert forall r :: r in order && r != order[0] ==> r in order[1..];
  }

  lemma {:induction false} RunKeepsUnderWay(o: Oracle, d0: Disk, d: Disk, report: Report, order: seq<Ref>,
          strikes: map<Ref, Strike>)
    requires UnderWay(o, d0, d) && Covers(o, Refs(d.heads, d.versions), order, false)
    ensures UnderWay(o, d0, RunOver(o, d, report, order, strikes).disk)
    decreases |order|
  {
    if order != [] {
      var strike := StrikeAt(strikes, order[0]);
      var (d1, outcome) := MigrateOne(o, d, order[0], strike);
      OneKeepsUnderWay(o, d0, d, order[0], strike);
      if outcome != Stopped {
        CoversRest(o, Refs(d.heads, d.versions), Refs(d1.heads, d1.versions), order, false);
        RunKeepsUnderWay(o, d0, d1, Counted(report, outcome), order[1..], strikes);
      }
    }
  }

  /** What every undisturbed step of a run keeps holds at its end. */
  lemma {:induction false} RunThrough(o: Oracle, d: Disk, report: Report, order: seq<Ref>, p: (Disk, seq<Ref>) -> bool)
    requires p(d, order)
    requires forall s, rest :: p(s, rest) && rest != [] ==>
               MigrateOne(o, s, rest[0], NothingStrikes).1 in {SkippedOne, RenamedOne} &&
                 p(MigrateOne(o, s, rest[0], NothingStrikes).0, rest[1..])
    ensures var end := RunOver(o, d, report, order, map[]);
            !end.stopped && p(end.disk, []) && end.report.failed == report.failed
    decreases |order|
  {
    if order != [] {
      var (d1, outcome) := MigrateOne(o, d, order[0], NothingStrikes);
      RunThrough(o, d1, Counted(report, outcome), order[1..], p);
    }
  }

  /** With nothing striking, a run over what is left brings every reference to its keyed name. */
  lemma CleanRunFinishes(o: Oracle, d0: Disk, d: Disk, report: Report, order: seq<Ref>)
    requires UnderWay(o, d0, d) && Covers(o, Refs(d.heads, d.versions), order, true)
    ensures var end := RunOver(o, d, report, order, map[]);
            !end.stopped && UnderWay(o, d0, end.disk) && AllKeyed(o, Refs(end.disk.heads, end.disk.versions)) &&
              end.report.failed == report.failed
  {
    var p := (s: Disk, rest: seq<Ref>) => UnderWay(o, d0, s) && Covers(o, Refs(s.heads, s.versions), rest, true);
    forall s, rest | p(s, rest) && rest != []
      ensures MigrateOne(o, s, rest[0], NothingStrikes).1 in {SkippedOne, RenamedOne} &&
              p(MigrateOne(o, s, rest[0], NothingStrikes).0, rest[1..])
    {
      var s1, outcome := CleanStep(o, d0, s, rest);
    }
    RunThrough(o, d, report, order, p);
  }

  lemma CleanStep(o: Oracle, d0: Disk, d: Disk, order: seq<Ref>) returns (d1: Disk, outcome: Outcome)
    requires UnderWay(o, d0, d) && Covers(o, Refs(d.heads, d.versions), order, true) && order != []
    ensures MigrateOne(o, d, order[0], NothingStrikes) == (d1, outcome) &&
            (outcome == SkippedOne || outcome == RenamedOne)
    ensures UnderWay(o, d0, d1) && Covers(o, Refs(d1.heads, d1.versions), order[1..], true)
  {
    d1, outcome := MigrateOne(o, d, order[0], NothingStrikes).0, MigrateOne(o, d, order[0], NothingStrikes).1;
    OneKeepsUnderWay(o, d0, d, order[0], NothingStrikes);
    CoversRest(o, Refs(d.heads, d.versions), Refs(d1.heads, d1.versions), order, true);
  }

  function KeyedHeads(o: Oracle, heads: map<string, Head>): map<string, Head> {
    map f | f in heads :: if heads[f].blobId == "" then heads[f]
      else heads[f].(blobId := o.blobName(heads[f].contentHash))
  }

  function KeyedVersions(o: Oracle, versions: map<VersionKey, Version>): map<VersionKey, Version> {
    map k | k in versions :: if versions[k].blobId == "" then versions[k]
      else versions[k].(blobId := o.blobName(versions[k].contentHash))
  }

  /** File names after the migration: the keyed ones, and those it is not about. */
  ghost function KeyedNames(o: Oracle, refs: set<Ref>, files: Files): set<string> {
    (set b | b in files && !About(o, refs, b)) + (set r | r in refs :: o.blobName(r.1))
  }

  /** The finished migration: every row on its keyed name and nothing else about it changed,
      every reference readable, and exactly the expected files. */
  ghost predicate Finished(o: Oracle, d0: Disk, d: Disk) {
    d.heads == KeyedHeads(o, d0.heads) && d.versions == KeyedVersions(o, d0.versions) &&
    Readable(o, Refs(d.heads, d.versions), d.files) &&
      d.files.Keys == KeyedNames(o, Refs(d0.heads, d0.versions), d0.files) &&
    OthersStay(o, Refs(d0.heads, d0.versions), d0.files, d.files)
  }

  lemma KeyedHeadRows(o: Oracle, heads0: map<string, Head>, heads: map<string, Head>)
    requires SameHeads(o, heads0, heads) && AllKeyed(o, HeadRefs(heads))
    requires forall r :: r in HeadRefs(heads0) ==> r.0 != "" && o.blobName(r.1) != ""
    ensures heads == KeyedHeads(o, heads0)
  {
    forall f | f in heads ensures heads[f] == KeyedHeads(o, heads0)[f] {
      if heads0[f].blobId != "" {
        assert (heads0[f].blobId, heads0[f].contentHash) in HeadRefs(heads0);
        assert (heads[f].blobId, heads[f].contentHash) in HeadRefs(heads);
      }
    }
  }

  lemma KeyedVersionRows(o: Oracle, versions0: map<VersionKey, Version>, versions: map<VersionKey, Version>)
    requires SameVersions(o, versions0, versions) && AllKeyed(o, VersionRefs(versions))
    requires forall r :: r in VersionRefs(versions0) ==> r.0 != "" && o.blobName(r.1) != ""
    ensures versions == KeyedVersions(o, versions0)
  {
    forall k | k in versions ensures versions[k] == KeyedVersions(o, versions0)[k] {
      if versions0[k].blobId != "" {
        assert (versions0[k].blobId, versions0[k].contentHash) in VersionRefs(versions0);
        assert (versions[k].blobId, versions[k].contentHash) in VersionRefs(versions);
      }
    }
  }

  lemma KeyedRows(o: Oracle, d0: Disk, d: Disk)
    requires SameHeads(o, d0.heads, d.heads) && SameVersions(o, d0.versions, d.versions)
    requires Sane(o, Refs(d0.heads, d0.versions)) && AllKeyed(o, Refs(d.heads, d.versions))
    ensures d.heads == KeyedHeads(o, d0.heads) && d.versions == KeyedVersions(o, d0.versions)
  {
    assert HeadRefs(d0.heads) <= Refs(d0.heads, d0.versions) && VersionRefs(d0.versions) <= Refs(d0.heads, d0.versions);
    assert HeadRefs(d.heads) <= Refs(d.heads, d.versions) && VersionRefs(d.versions) <= Refs(d.heads, d.versions);
    KeyedHeadRows(o, d0.heads, d.heads);
    KeyedVersionRows(o, d0.versions, d.versions);
  }

  lemma KeyedRefs(o: Oracle, d0: Disk, d: Disk, q: Ref)
    requires d.heads == KeyedHeads(o, d0.heads) && d.versions == KeyedVersions(o, d0.versions)
    requires q in Refs(d0.heads, d0.versions) && o.blobName(q.1) != ""
    ensures (o.blobName(q.1), q.1) in Refs(d.heads, d.versions)
  {
    if f :| f in d0.heads && d0.heads[f].blobId != "" && q == (d0.heads[f].blobId, d0.heads[f].contentHash) {
      assert d.heads[f].blobId != "";
    } else {
      var k :| k in d0.versions && d0.versions[k].blobId != "" &&
        q == (d0.versions[k].blobId, d0.versions[k].contentHash);
      assert d.versions[k].blobId != "";
    }
  }

  lemma KeyedIsFinished(o: Oracle, d0: Disk, d: Disk)
    requires UnderWay(o, d0, d) && AllKeyed(o, Refs(d.heads, d.versions))
    ensures Finished(o, d0, d)
  {
    var refs0, refs := Refs(d0.heads, d0.versions), Refs(d.heads, d.versions);
    KeyedRows(o, d0, d);
    assert Readable(o, refs, d.files);
    forall b ensures b in d.files <==> b in KeyedNames(o, refs0, d0.files) {
      if q :| q in refs0 && b == o.blobName(q.1) {
        KeyedRefs(o, d0, d, q);
        assert About(o, refs0, b);
      } else {
        OldNameIsGone(o, refs0, d0.files, refs, d.files, b);
      }
    }
  }

  lemma OldNameIsGone(o: Oracle, refs0: set<Ref>, files0: Files, refs: set<Ref>, files: Files, b: string)
    requires SameFiles(o, refs0, files0, refs, files) && AllKeyed(o, refs) && forall q :: q in refs0 ==>
             b != o.blobName(q.1)
    ensures b in files <==> b in files0 && !About(o, refs0, b)
  {
  }

  // ---------- the theorems ----------

  /** One attempt: the references in the order it found them, and what struck it. */
  datatype Attempt = Attempt(order: seq<Ref>, strikes: map<Ref, Strike>)

  ghost function AfterAttempts(o: Oracle, d: Disk, attempts: seq<Attempt>): Disk {
    if attempts == [] then d
    else
      var last := attempts[|attempts| - 1];
      RunOver(o, AfterAttempts(o, d, attempts[..|attempts| - 1]), Report(|last.order|, 0, 0, 0), last.order,
        last.strikes).disk
  }

  /** Every attempt goes over the references as it finds them. */
  ghost predicate Honest(o: Oracle, d: Disk, attempts: seq<Attempt>) {
    attempts == [] ||
    var before := AfterAttempts(o, d, attempts[..|attempts| - 1]);
    Honest(o, d, attempts[..|attempts| - 1]) &&
      Enumerates(attempts[|attempts| - 1].order, Refs(before.heads, before.versions))
  }

  lemma {:induction false} AttemptsKeepUnderWay(o: Oracle, d: Disk, attempts: seq<Attempt>)
    requires Sane(o, Refs(d.heads, d.versions)) && Held(o, Refs(d.heads, d.versions), d.files) && Honest(o, d, attempts)
    ensures UnderWay(o, d, AfterAttempts(o, d, attempts))
  {
    if attempts == [] {
      StartsUnderWay(o, d);
    } else {
      var init, last := attempts[..|attempts| - 1], attempts[|attempts| - 1];
      AttemptsKeepUnderWay(o, d, init);
      RunKeepsUnderWay(o, d, AfterAttempts(o, d, init), Report(|last.order|, 0, 0, 0), last.order, last.strikes);
    }
  }

  /** Crash anywhere, any number of times, then run once undisturbed: the migration is finished.
      What `Finished` says depends on the start alone, so rows and file names are those of one
      uninterrupted run. */
  lemma CrashAnywhereRunAgain(o: Oracle, d: Disk, attempts: seq<Attempt>)
    requires Sane(o, Refs(d.heads, d.versions)) && Held(o, Refs(d.heads, d.versions), d.files)
    requires attempts != [] && Honest(o, d, attempts) && attempts[|attempts| - 1].strikes == map[]
    ensures Finished(o, d, AfterAttempts(o, d, attempts))
  {
    var init, last := attempts[..|attempts| - 1], attempts[|attempts| - 1];
    AttemptsKeepUnderWay(o, d, init);
    CleanRunFinishes(o, d, AfterAttempts(o, d, init), Report(|last.order|, 0, 0, 0), last.order);
    KeyedIsFinished(o, d, AfterAttempts(o, d, attempts));
  }

  /** And to the last byte: where hashes tell contents apart, two finished migrations of the same
      disk hold the same rows and the same files. */
  lemma OneEndToTheByte(o: Oracle, d0: Disk, d: Disk, d': Disk)
    requires forall a, b :: o.hash(a) == o.hash(b) ==> a == b
    requires Sane(o, Refs(d0.heads, d0.versions)) && Finished(o, d0, d) && Finished(o, d0, d')
    ensures d.heads == d'.heads && d.versions == d'.versions && d.files == d'.files
  {
    var refs0, refs := Refs(d0.heads, d0.versions), Refs(d.heads, d.versions);
    forall b | b in d.files ensures d.files[b] == d'.files[b] {
      if About(o, refs0, b) {
        var q :| q in refs0 && b == o.blobName(q.1);
        KeyedRefs(o, d0, d, q);
        assert o.hash(d.files[b]) == q.1 == o.hash(d'.files[b]);
      }
    }
  }

  lemma CleanRunReport(o: Oracle, d: Disk, order: seq<Ref>)
    requires Sane(o, Refs(d.heads, d.versions)) && Held(o, Refs(d.heads, d.versions), d.files)
    requires Enumerates(order, Refs(d.heads, d.versions))
    ensures var end := RunOver(o, d, Report(|order|, 0, 0, 0), order, map[]);
            !end.stopped && end.report.failed == 0 && end.report.renamed + end.report.skipped == |order| &&
              Finished(o, d, end.disk)
  {
    StartsUnderWay(o, d);
    CleanRunFinishes(o, d, d, Report(|order|, 0, 0, 0), order);
    KeyedIsFinished(o, d, RunOver(o, d, Report(|order|, 0, 0, 0), order, map[]).disk);
    CountsAddUp(o, d, Report(|order|, 0, 0, 0), order, map[]);
  }

  /** Once finished, a run renames nothing and touches nothing, whatever would strike it. */
  lemma {:induction false} SecondRunDoesNothing(o: Oracle, d: Disk, report: Report, order: seq<Ref>, strikes: map<Ref,
          Strike>)
    requires forall r :: r in order ==> r.0 == o.blobName(r.1)
    ensures RunOver(o, d, report, order, strikes) == Ending(d, report.(skipped := report.skipped + |order|), false)
    decreases |order|
  {
    if order != [] { SecondRunDoesNothing(o, d, Counted(report, SkippedOne), order[1..], strikes); }
  }

  /** A rename undone after its rows could not be repointed: every other reference is as
      readable as before, its own is readable again, and those already on the keyed name are
      left without a file.  So nothing dangles exactly when no row was on the keyed name. */
  lemma UndoneRename(o: Oracle, d: Disk, x: Ref)
    requires Sane(o, Refs(d.heads, d.versions)) && Held(o, Refs(d.heads, d.versions), d.files)
    requires x in Refs(d.heads, d.versions) && x.0 != o.blobName(x.1)
    requires Readable(o, Refs(d.heads, d.versions) - {x}, d.files)
    ensures var (d', outcome) := MigrateOne(o, d, x, RepointFails);
            outcome == FailedOne && Refs(d'.heads, d'.versions) == Refs(d.heads, d.versions) &&
            (Readable(o, Refs(d'.heads, d'.versions), d'.files) <==>
              (o.blobName(x.1), x.1) !in Refs(d.heads, d.versions))
  {
    var refs := Refs(d.heads, d.versions);
    RenameKeepsHeld(o, refs, d.files, x);
    UndoKeepsHeld(o, refs, RenameFile(d.files, x.0, o.blobName(x.1)).value, x);
    UndoReadable(o, refs, d.files, x);
  }

  lemma UndoReadable(o: Oracle, refs: set<Ref>, files: Files, x: Ref)
    requires Sane(o, refs) && Held(o, refs, files) && x in refs && x.0 != o.blobName(x.1) &&
             Readable(o, refs - {x}, files)
    requires RenameFile(files, x.0, o.blobName(x.1)).Some?
    ensures var back := RenameFile(RenameFile(files, x.0, o.blobName(x.1)).value, o.blobName(x.1), x.0);
            back.Some? ==> (Readable(o, refs, back.value) <==> (o.blobName(x.1), x.1) !in refs)
  {
    var files1 := RenameFile(files, x.0, o.blobName(x.1)).value;
    RenameKeepsHeld(o, refs, files, x);
    UndoKeepsHeld(o, refs, files1, x);
    var back := RenameFile(files1, o.blobName(x.1), x.0).value;
    assert o.blobName(x.1) !in back && x.0 in back;
    if (o.blobName(x.1), x.1) !in refs {
      forall r | r in refs ensures r.0 in back && o.hash(back[r.0]) == r.1 {
        if r != x { assert r in refs - {x} && r.0 != x.0 && r.0 != o.blobName(x.1); }
      }
    }
  }

  /** Dying between the rename and the repointing leaves the reference without a file until the
      migration is run again; when nothing else uses the keyed name, collecting unreferenced
      files in between makes that loss final. */
  lemma CollectedBeforeRepaired(o: Oracle, d: Disk, x: Ref, strike: Strike)
    requires Sane(o, Refs(d.heads, d.versions)) && Held(o, Refs(d.heads, d.versions), d.files)
    requires x in Refs(d.heads, d.versions) && x.0 != o.blobName(x.1)
    requires !Referenced(d.heads, d.versions, o.blobName(x.1))
    ensures var d1 := MigrateOne(o, d, x, DiesRenamed).0;
            x.0 !in d1.files && !Referenced(d1.heads, d1.versions, o.blobName(x.1))
    ensures var d2 := CollectedAfter(o, d, x);
            !Held(o, Refs(d2.heads, d2.versions), d2.files) && MigrateOne(o, d2, x, strike).1 != RenamedOne &&
              MigrateOne(o, d2, x, strike).0.files == d2.files
  {
    RenameKeepsHeld(o, Refs(d.heads, d.versions), d.files, x);
    DiedRenamed(o, d, x);
    var d2 := CollectedAfter(o, d, x);
    NowhereLeft(o, Refs(d2.heads, d2.versions), d2.files, x);
    NothingToRename(o, d2, x, strike);
  }

  /** The run died after the rename, and then the keyed name was collected. */
  function CollectedAfter(o: Oracle, d: Disk, x: Ref): Disk {
    var d1 := MigrateOne(o, d, x, DiesRenamed).0;
    d1.(files := d1.files - {o.blobName(x.1)})
  }

  lemma DiedRenamed(o: Oracle, d: Disk, x: Ref)
    requires x.0 != o.blobName(x.1) && RenameFile(d.files, x.0, o.blobName(x.1)).Some?
    ensures MigrateOne(o, d, x, DiesRenamed).0 ==
            d.(files := RenameFile(d.files, x.0, o.blobName(x.1)).value, journal := Enqueued(d.journal, x.0))
  {
  }

  lemma NowhereLeft(o: Oracle, refs: set<Ref>, files: Files, x: Ref)
    requires x in refs && x.0 != o.blobName(x.1) && x.0 !in files && o.blobName(x.1) !in files
    ensures !Held(o, refs, files)
  {
    assert !Somewhere(o, refs, files, x);
  }

  lemma NothingToRename(o: Oracle, d: Disk, x: Ref, strike: Strike)
    requires x.0 != o.blobName(x.1) && x.0 !in d.files && o.blobName(x.1) !in d.files
    ensures MigrateOne(o, d, x, strike).1 != RenamedOne && MigrateOne(o, d, x, strike).0.files == d.files
  {
  }

  /** A run that was not stopped has counted every reference once. */
  lemma {:induction false} CountsAddUp(o: Oracle, d: Disk, report: Report, order: seq<Ref>, strikes: map<Ref, Strike>)
    ensures var end := RunOver(o, d, report, order, strikes);
            !end.stopped ==>
              end.report.renamed + end.report.skipped + end.report.failed ==
              report.renamed + report.skipped + report.failed + |order|
    decreases |order|
  {
    if order != [] {
      var (d1, outcome) := MigrateOne(o, d, order[0], StrikeAt(strikes, order[0]));
      if outcome != Stopped { CountsAddUp(o, d1, Counted(report, outcome), order[1..], strikes); }
    }
  }
}
