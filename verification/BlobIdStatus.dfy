/** What the status command says of the blob id migration, and when it is wrong. */
module BlobIdStatus {
  import opened Options
  import opened Tables
  import opened BlobIdMigration

  /** Some blob is still under its bare hash. */
  ghost predicate Remaining(o: Oracle, d: Disk) {
    exists r :: r in Refs(d.heads, d.versions) && r.0 != o.blobName(r.1)
  }

  /** Some live object has a content. */
  predicate Live(d: Disk) {
    exists f :: f in d.heads && d.heads[f].blobId != ""
  }

  predicate Unfinished(stage: Stage) {
    stage == Pending || stage == Failed
  }

  predicate IsBare(o: Oracle, r: Ref) {
    r.0 != o.blobName(r.1)
  }

  /** The first blob of an attempt that something strikes. */
  predicate FirstStruck(o: Oracle, order: seq<Ref>, strikes: map<Ref, Strike>, i: int) {
    0 <= i < |order| && IsBare(o, order[i]) && StrikeAt(strikes, order[i]) != NothingStrikes &&
    forall j :: 0 <= j < i && IsBare(o, order[j]) ==> StrikeAt(strikes, order[j]) == NothingStrikes
  }

  /** Some blob has gone through. */
  ghost predicate HasDone(journal: map<string, Stage>) {
    exists b :: b in journal && journal[b] == Done
  }

  /** The blobs that are registered and have not gone through. */
  function Registered(journal: map<string, Stage>): set<string> {
    set b | b in journal && Unfinished(journal[b])
  }

  /** None of these blobs was registered before. */
  predicate NoneOf(pending: set<string>, order: seq<Ref>) {
    forall r :: r in order ==> r.0 !in pending
  }

  /** An attempt that could not register a blob, with none from there on registered before, after
      others had gone through. */
  ghost predicate StopsUnregistered(o: Oracle, live: bool, done: bool, pending: set<string>, order: seq<Ref>,
          strikes: map<Ref, Strike>)
  {
    exists i :: FirstStruck(o, order, strikes, i) && StrikeAt(strikes, order[i]) == EnqueueFails &&
                NoneOf(pending, order[i..]) && (done || !live || exists j :: 0 <= j < i && IsBare(o, order[j]))
  }

  /** An attempt that died over its last blob, after repointing the rows and before saying so. */
  ghost predicate DiesUnmarked(o: Oracle, order: seq<Ref>, strikes: map<Ref, Strike>) {
    exists i :: FirstStruck(o, order, strikes, i) && StrikeAt(strikes, order[i]) == DiesRepointed &&
                forall j :: i < j < |order| ==> !IsBare(o, order[j])
  }

  ghost predicate NothingBare(o: Oracle, order: seq<Ref>) {
    forall i :: 0 <= i < |order| ==> !IsBare(o, order[i])
  }

  // ---------- how both move along the list ----------

  lemma FirstStruckNext(o: Oracle, order: seq<Ref>, strikes: map<Ref, Strike>, i: int)
    requires order != [] && !(IsBare(o, order[0]) && StrikeAt(strikes, order[0]) != NothingStrikes)
    ensures FirstStruck(o, order, strikes, i) <==> i > 0 && FirstStruck(o, order[1..], strikes, i - 1)
  {
    if i > 0 && FirstStruck(o, order[1..], strikes, i - 1) {
      forall j | 0 <= j < i && IsBare(o, order[j]) ensures StrikeAt(strikes, order[j]) == NothingStrikes {
        if j > 0 { assert order[j] == order[1..][j - 1]; }
      }
    }
    if FirstStruck(o, order, strikes, i) {
      assert i > 0;
      forall j | 0 <= j < i - 1 && IsBare(o, order[1..][j]) ensures StrikeAt(strikes, order[1..][j]) == NothingStrikes {
        assert order[1..][j] == order[j + 1];
      }
    }
  }

  lemma StopsLater(o: Oracle, live: bool, done: bool, pending: set<string>, order: seq<Ref>, strikes: map<Ref, Strike>)
    requires order != [] && !(IsBare(o, order[0]) && StrikeAt(strikes, order[0]) != NothingStrikes)
    requires StopsUnregistered(o, live, done, pending, order, strikes)
    ensures StopsUnregistered(o, live, done || IsBare(o, order[0]), pending, order[1..], strikes)
  {
    var rest := order[1..];
    var i :| FirstStruck(o, order, strikes, i) && StrikeAt(strikes, order[i]) == EnqueueFails &&
             NoneOf(pending, order[i..]) && (done || !live || exists j :: 0 <= j < i && IsBare(o, order[j]));
    FirstStruckNext(o, order, strikes, i);
    if !(done || !live) {
      var j :| 0 <= j < i && IsBare(o, order[j]);
      if j > 0 { assert IsBare(o, rest[j - 1]); }
    }
    assert rest[i - 1..] == order[i..];
    assert FirstStruck(o, rest, strikes, i - 1);
  }

  lemma StopsEarlier(o: Oracle, live: bool, done: bool, pending: set<string>, order: seq<Ref>,
          strikes: map<Ref, Strike>)
    requires order != [] && !(IsBare(o, order[0]) && StrikeAt(strikes, order[0]) != NothingStrikes)
    requires StopsUnregistered(o, live, done || IsBare(o, order[0]), pending, order[1..], strikes)
    ensures StopsUnregistered(o, live, done, pending, order, strikes)
  {
    var rest, done' := order[1..], done || IsBare(o, order[0]);
    var i :| FirstStruck(o, rest, strikes, i) && StrikeAt(strikes, rest[i]) == EnqueueFails &&
             NoneOf(pending, rest[i..]) && (done' || !live || exists j :: 0 <= j < i && IsBare(o, rest[j]));
    FirstStruckNext(o, order, strikes, i + 1);
    assert rest[i..] == order[i + 1..];
    assert FirstStruck(o, order, strikes, i + 1);
    if !(done || !live) { BareBefore(o, order, i); }
  }

  lemma BareBefore(o: Oracle, order: seq<Ref>, i: int)
    requires order != [] && 0 <= i < |order| - 1
    requires IsBare(o, order[0]) || exists j :: 0 <= j < i && IsBare(o, order[1..][j])
    ensures exists j :: 0 <= j < i + 1 && IsBare(o, order[j])
  {
    if !IsBare(o, order[0]) {
      var j :| 0 <= j < i && IsBare(o, order[1..][j]);
      assert IsBare(o, order[j + 1]);
    }
  }

  lemma StopsNext(o: Oracle, live: bool, done: bool, pending: set<string>, order: seq<Ref>, strikes: map<Ref, Strike>)
    requires order != [] && !(IsBare(o, order[0]) && StrikeAt(strikes, order[0]) != NothingStrikes)
    ensures StopsUnregistered(o, live, done, pending, order, strikes) <==>
              StopsUnregistered(o, live, done || IsBare(o, order[0]), pending, order[1..], strikes)
  {
    if StopsUnregistered(o, live, done, pending, order, strikes) {
      StopsLater(o, live, done, pending, order, strikes);
    }
    if StopsUnregistered(o, live, done || IsBare(o, order[0]), pending, order[1..], strikes) {
      StopsEarlier(o, live, done, pending, order, strikes);
    }
  }

  lemma DiesNext(o: Oracle, order: seq<Ref>, strikes: map<Ref, Strike>)
    requires order != [] && !(IsBare(o, order[0]) && StrikeAt(strikes, order[0]) != NothingStrikes)
    ensures DiesUnmarked(o, order, strikes) <==> DiesUnmarked(o, order[1..], strikes)
  {
    var rest := order[1..];
    if DiesUnmarked(o, order, strikes) {
      var i :| FirstStruck(o, order, strikes, i) && StrikeAt(strikes, order[i]) == DiesRepointed &&
               forall j :: i < j < |order| ==> !IsBare(o, order[j]);
      FirstStruckNext(o, order, strikes, i);
      assert FirstStruck(o, rest, strikes, i - 1);
      assert forall j :: i - 1 < j < |rest| ==> rest[j] == order[j + 1];
    }
    if DiesUnmarked(o, rest, strikes) {
      var i :| FirstStruck(o, rest, strikes, i) && StrikeAt(strikes, rest[i]) == DiesRepointed &&
               forall j :: i < j < |rest| ==> !IsBare(o, rest[j]);
      FirstStruckNext(o, order, strikes, i + 1);
      assert FirstStruck(o, order, strikes, i + 1);
      assert forall j :: i + 1 < j < |order| ==> order[j] == rest[j - 1];
    }
  }

  /** At the first struck blob itself. */
  lemma StruckFirst(o: Oracle, live: bool, done: bool, pending: set<string>, order: seq<Ref>,
          strikes: map<Ref, Strike>)
    requires order != [] && IsBare(o, order[0]) && StrikeAt(strikes, order[0]) != NothingStrikes
    ensures forall i :: FirstStruck(o, order, strikes, i) <==> i == 0
    ensures StopsUnregistered(o, live, done, pending, order, strikes) <==>
            StrikeAt(strikes, order[0]) == EnqueueFails && NoneOf(pending, order) && (done || !live)
    ensures DiesUnmarked(o, order, strikes) <==>
            StrikeAt(strikes, order[0]) == DiesRepointed && NothingBare(o, order[1..])
  {
    assert FirstStruck(o, order, strikes, 0);
    assert order[0..] == order;
    assert NothingBare(o, order[1..]) <==> forall j :: 0 < j < |order| ==> !IsBare(o, order[j]) by {
      assert forall j :: 0 < j < |order| ==> order[j] == order[1..][j - 1];
    }
  }

  // ---------- one attempt ----------

  /** What the migration of one blob does, whatever strikes it, while nothing is lost. */
  ghost predicate Moves(o: Oracle, d: Disk, x: Ref, strike: Strike) {
    var (d1, outcome) := MigrateOne(o, d, x, strike);
    var moved := Refs(d.heads, d.versions) - {x} + {(o.blobName(x.1), x.1)};
    LeavesOthers(o, Refs(d.heads, d.versions), Refs(d1.heads, d1.versions), x) && Live(d1) == Live(d) &&
    (IsBare(o, x) && strike == NothingStrikes ==> outcome == RenamedOne && Refs(d1.heads, d1.versions) == moved) &&
    (IsBare(o, x) && strike == DiesRepointed ==>
      outcome == Stopped && Refs(d1.heads, d1.versions) == moved && d1.journal == Enqueued(d.journal, x.0))
  }

  /** What holds of a disk through all of it: names tell references apart, no keyed name is the
      bare name of a reference there was, and every step is as above. */
  ghost predicate Steady(o: Oracle, p: Disk -> bool, refs0: set<Ref>) {
    (forall d, x, strike :: p(d) && x in Refs(d.heads, d.versions) ==>
      p(MigrateOne(o, d, x, strike).0) && Moves(o, d, x, strike)) &&
    (forall d, r, q :: p(d) && r in Refs(d.heads, d.versions) && q in Refs(d.heads, d.versions) && r.0 == q.0 ==>
      r == q) &&
    (forall d, r :: p(d) && r in Refs(d.heads, d.versions) && IsBare(o, r) ==> r in refs0) &&
    forall d, r, x :: p(d) && r in Refs(d.heads, d.versions) && x in refs0 && IsBare(o, x) ==> o.blobName(r.1) != x.0
  }

  lemma UnderWayIsSteady(o: Oracle, d0: Disk)
    ensures Steady(o, d => UnderWay(o, d0, d), Refs(d0.heads, d0.versions))
  {
    var p, refs0 := (d: Disk) => UnderWay(o, d0, d), Refs(d0.heads, d0.versions);
    forall d, x, strike | p(d) && x in Refs(d.heads, d.versions)
      ensures p(MigrateOne(o, d, x, strike).0) && Moves(o, d, x, strike)
    {
      StepIsSteady(o, d0, d, x, strike);
    }
    forall d, r, x | p(d) && r in Refs(d.heads, d.versions) && x in refs0 && IsBare(o, x)
      ensures o.blobName(r.1) != x.0
    {
      NoWayBack(o, d0, d, x, r);
    }
    forall d, r, q | p(d) && r in Refs(d.heads, d.versions) && q in Refs(d.heads, d.versions) && r.0 == q.0
      ensures r == q
    {
      OneByName(o, d0, d, r, q);
    }
    forall d, r | p(d) && r in Refs(d.heads, d.versions) && IsBare(o, r) ensures r in refs0 {
      assert SameRefs(o, refs0, Refs(d.heads, d.versions));
    }
  }

  lemma OneByName(o: Oracle, d0: Disk, d: Disk, r: Ref, q: Ref)
    requires UnderWay(o, d0, d) && r in Refs(d.heads, d.versions) && q in Refs(d.heads, d.versions) && r.0 == q.0
    ensures r == q
  {
    assert r.1 == q.1;
  }

  lemma NoWayBack(o: Oracle, d0: Disk, d: Disk, x: Ref, y: Ref)
    requires UnderWay(o, d0, d) && x in Refs(d0.heads, d0.versions) && IsBare(o, x) && y in Refs(d.heads, d.versions)
    ensures o.blobName(y.1) != x.0
  {
    var refs0 := Refs(d0.heads, d0.versions);
    var q :| q in refs0 && q.1 == y.1;
    assert x.0 == o.blobName(q.1) ==> x.1 == q.1;
  }

  lemma StepIsSteady(o: Oracle, d0: Disk, d: Disk, x: Ref, strike: Strike)
    requires UnderWay(o, d0, d) && x in Refs(d.heads, d.versions)
    ensures UnderWay(o, d0, MigrateOne(o, d, x, strike).0) && Moves(o, d, x, strike)
  {
    var d1 := MigrateOne(o, d, x, strike).0;
    OneKeepsUnderWay(o, d0, d, x, strike);
    LiveStays(o, d0, d);
    LiveStays(o, d0, d1);
    if IsBare(o, x) && strike == DiesRepointed {
      var files := FileMoves(o, d0, d, x);
      RowsFollow(o, d0, d.(files := files), x);
      DiesRepointedIs(o, d, x, files);
    }
  }

  lemma DiesRepointedIs(o: Oracle, d: Disk, x: Ref, files: Files)
    requires IsBare(o, x) && RenameFile(d.files, x.0, o.blobName(x.1)) == Some(files)
    ensures MigrateOne(o, d, x, DiesRepointed) ==
            (Disk(RepointHeads(d.heads, x.0, o.blobName(x.1)), RepointVersions(d.versions, x.0, o.blobName(x.1)), files,
              Enqueued(d.journal, x.0)), Stopped)
  {
  }

  lemma LiveStays(o: Oracle, d0: Disk, d: Disk)
    requires UnderWay(o, d0, d)
    ensures Live(d) == Live(d0)
  {
    forall f | f in d0.heads ensures d0.heads[f].blobId != "" <==> d.heads[f].blobId != "" {
      if d0.heads[f].blobId != "" {
        assert (d0.heads[f].blobId, d0.heads[f].contentHash) in Refs(d0.heads, d0.versions);
      }
    }
  }

  /** A strike that leaves the rows where they are leaves its blob registered and unfinished. */
  lemma StruckStaysRegistered(o: Oracle, d: Disk, x: Ref, strike: Strike)
    requires IsBare(o, x) && strike != NothingStrikes && strike != EnqueueFails && strike != DiesRepointed
    requires x.0 in d.journal ==> Unfinished(d.journal[x.0])
    ensures var d1 := MigrateOne(o, d, x, strike).0;
            d1.heads == d.heads && d1.versions == d.versions && x.0 in d1.journal && Unfinished(d1.journal[x.0])
  {
  }

  lemma JournalOfOthers(o: Oracle, d: Disk, x: Ref, strike: Strike)
    ensures var journal := MigrateOne(o, d, x, strike).0.journal;
            forall b :: b != x.0 ==> (b in journal <==> b in d.journal) && (b in journal ==> journal[b] == d.journal[b])
  {
  }

  /** What the migration of one blob that goes through leaves in the journal. */
  lemma JournalOfOne(o: Oracle, d: Disk, x: Ref)
    ensures MigrateOne(o, d, x, NothingStrikes).1 == RenamedOne ==>
            MigrateOne(o, d, x, NothingStrikes).0.journal == d.journal[x.0 := Done]
  {
    assert Enqueued(d.journal, x.0)[x.0 := Done] == d.journal[x.0 := Done];
  }

  lemma StepLeavesBehind(o: Oracle, p: Disk -> bool, refs0: set<Ref>, d: Disk, y: Ref, strike: Strike, x: Ref)
    requires Steady(o, p, refs0) && p(d) && y in Refs(d.heads, d.versions) && x.0 != y.0
    requires x in Refs(d.heads, d.versions) && x.0 in d.journal && Unfinished(d.journal[x.0])
    ensures var d1 := MigrateOne(o, d, y, strike).0;
            p(d1) && x in Refs(d1.heads, d1.versions) && x.0 in d1.journal && Unfinished(d1.journal[x.0]) &&
            LeavesOthers(o, Refs(d.heads, d.versions), Refs(d1.heads, d1.versions), y)
  {
    assert Moves(o, d, y, strike);
    JournalOfOthers(o, d, y, strike);
  }

  /** A blob left behind in a run stays behind, and registered. */
  lemma {:induction false} LeftBehind(o: Oracle, p: Disk -> bool, refs0: set<Ref>, d: Disk, report: Report,
          order: seq<Ref>, strikes: map<Ref, Strike>, x: Ref)
    requires Steady(o, p, refs0) && p(d) && Covers(o, Refs(d.heads, d.versions), order, false)
    requires x in Refs(d.heads, d.versions) && x.0 in d.journal && Unfinished(d.journal[x.0]) &&
             forall r :: r in order ==> r.0 != x.0
    ensures var end := RunOver(o, d, report, order, strikes).disk;
            x in Refs(end.heads, end.versions) && x.0 in end.journal && Unfinished(end.journal[x.0])
    decreases |order|
  {
    if order != [] {
      var y, strike := order[0], StrikeAt(strikes, order[0]);
      var (d1, outcome) := MigrateOne(o, d, y, strike);
      assert y in order;
      StepLeavesBehind(o, p, refs0, d, y, strike, x);
      if outcome != Stopped {
        CoversRest(o, Refs(d.heads, d.versions), Refs(d1.heads, d1.versions), order, false);
        LeftBehind(o, p, refs0, d1, Counted(report, outcome), order[1..], strikes, x);
      }
    }
  }

  /** What is known before each blob of an attempt that nothing has struck so far: what is left to go
      over is all that is left, and the journal holds blobs that are done and, of those left, the
      ones registered before the attempt. */
  ghost predicate Unstruck(o: Oracle, d: Disk, pending: set<string>, order: seq<Ref>) {
    Covers(o, Refs(d.heads, d.versions), order, true) &&
    (forall b :: b in d.journal ==> d.journal[b] == Done || IsAhead(o, order, b)) &&
    forall r :: r in order ==> (r.0 in d.journal <==> r.0 in pending) && (r.0 in pending ==>
      Unfinished(d.journal[r.0]))
  }

  ghost predicate IsAhead(o: Oracle, order: seq<Ref>, b: string) {
    exists r :: r in order && IsBare(o, r) && r.0 == b
  }

  /** Whether the status of a disk agrees with what is left to do. */
  ghost predicate Says(o: Oracle, d: Disk, misses: bool, asks: bool) {
    (Remaining(o, d) && !Needs(d) <==> misses) && (Needs(d) && !Remaining(o, d) <==> asks)
  }

  lemma NeedsExactly(d: Disk)
    ensures Needs(d) <==> Registered(d.journal) != {} || (Live(d) && !HasDone(d.journal))
  {
    if b :| b in Registered(d.journal) { assert b in d.journal && Unfinished(d.journal[b]); }
    if b :| b in d.journal && Unfinished(d.journal[b]) { assert b in Registered(d.journal); }
  }

  /** Something is registered exactly when something ahead was. */
  lemma RegisteredAhead(o: Oracle, d: Disk, pending: set<string>, order: seq<Ref>)
    requires Unstruck(o, d, pending, order)
    ensures Registered(d.journal) == {} <==> NoneOf(pending, order)
  {
    if b :| b in Registered(d.journal) {
      var r :| r in order && IsBare(o, r) && r.0 == b;
      assert r.0 in pending;
    }
    if r :| r in order && r.0 in pending { assert r.0 in Registered(d.journal); }
  }

  lemma NothingLeft(o: Oracle, d: Disk, pending: set<string>)
    requires Unstruck(o, d, pending, [])
    ensures Says(o, d, false, Live(d) && !HasDone(d.journal))
  {
    NeedsExactly(d);
    RegisteredAhead(o, d, pending, []);
  }

  lemma SkipsOne(o: Oracle, d: Disk, pending: set<string>, order: seq<Ref>)
    requires Unstruck(o, d, pending, order) && order != [] && !IsBare(o, order[0])
    ensures Unstruck(o, d, pending, order[1..])
  {
    assert forall r :: r in order[1..] ==> r in order;
    assert forall r :: r in order && r != order[0] ==> r in order[1..];
  }

  lemma OneThrough(o: Oracle, p: Disk -> bool, refs0: set<Ref>, d: Disk, pending: set<string>, order: seq<Ref>)
    requires Steady(o, p, refs0) && p(d) && Unstruck(o, d, pending, order) && order != [] && IsBare(o, order[0])
    ensures var (d1, outcome) := MigrateOne(o, d, order[0], NothingStrikes);
            outcome == RenamedOne && p(d1) && Live(d1) == Live(d) && Unstruck(o, d1, pending, order[1..]) &&
            HasDone(d1.journal)
  {
    var x := order[0];
    var d1 := MigrateOne(o, d, x, NothingStrikes).0;
    assert x in order && Moves(o, d, x, NothingStrikes);
    JournalOfOne(o, d, x);
    CoversRest(o, Refs(d.heads, d.versions), Refs(d1.heads, d1.versions), order, true);
    forall r | r in order[1..] ensures r in order && r.0 != x.0 {
      assert r in order && r != x;
    }
    forall b | b in d1.journal ensures d1.journal[b] == Done || IsAhead(o, order[1..], b) {
      if b != x.0 && d.journal[b] != Done {
        var r :| r in order && IsBare(o, r) && r.0 == b;
        assert r in order[1..];
      }
    }
    assert x.0 in d1.journal && d1.journal[x.0] == Done;
  }

  lemma StrikesUnregistered(o: Oracle, d: Disk, pending: set<string>, order: seq<Ref>)
    requires Unstruck(o, d, pending, order) && order != [] && IsBare(o, order[0])
    ensures Says(o, d, NoneOf(pending, order) && (HasDone(d.journal) || !Live(d)), false)
  {
    assert order[0] in order && order[0] in Refs(d.heads, d.versions);
    NeedsExactly(d);
    RegisteredAhead(o, d, pending, order);
  }

  lemma StrikesRepointed(o: Oracle, p: Disk -> bool, refs0: set<Ref>, d: Disk, pending: set<string>, order: seq<Ref>)
    requires Steady(o, p, refs0) && p(d) && Unstruck(o, d, pending, order) && order != [] && IsBare(o, order[0])
    ensures var (d1, outcome) := MigrateOne(o, d, order[0], DiesRepointed);
            outcome == Stopped && Says(o, d1, false, NothingBare(o, order[1..]))
  {
    var x := order[0];
    var d1 := MigrateOne(o, d, x, DiesRepointed).0;
    assert x in order && Moves(o, d, x, DiesRepointed);
    assert x.0 in d1.journal && Unfinished(d1.journal[x.0]);
    BareLeft(o, Refs(d.heads, d.versions), Refs(d1.heads, d1.versions), order);
  }

  lemma BareLeft(o: Oracle, refs: set<Ref>, refs': set<Ref>, order: seq<Ref>)
    requires Covers(o, refs, order, true) && order != [] &&
             refs' == refs - {order[0]} + {(o.blobName(order[0].1), order[0].1)}
    ensures (exists r :: r in refs' && IsBare(o, r)) <==> !NothingBare(o, order[1..])
  {
    if r :| r in refs' && IsBare(o, r) {
      var i :| 0 <= i < |order| && order[i] == r;
      assert order[1..][i - 1] == r;
    }
    if !NothingBare(o, order[1..]) {
      var i :| 0 <= i < |order| - 1 && IsBare(o, order[1..][i]);
      assert order[1..][i] == order[i + 1] && order[i + 1] in order && order[i + 1] != order[0];
    }
  }

  lemma StrikesElsewhere(o: Oracle, p: Disk -> bool, refs0: set<Ref>, d: Disk, report: Report, pending: set<string>,
          order: seq<Ref>, strikes: map<Ref, Strike>)
    requires Steady(o, p, refs0) && p(d) && Unstruck(o, d, pending, order) && order != [] && IsBare(o, order[0])
    requires StrikeAt(strikes, order[0]) !in {NothingStrikes, EnqueueFails, DiesRepointed}
    ensures Says(o, RunOver(o, d, report, order, strikes).disk, false, false)
  {
    var x, strike := order[0], StrikeAt(strikes, order[0]);
    var (d1, outcome) := MigrateOne(o, d, x, strike);
    assert x in order && Moves(o, d, x, strike);
    StruckStaysRegistered(o, d, x, strike);
    if outcome != Stopped {
      CoversRest(o, Refs(d.heads, d.versions), Refs(d1.heads, d1.versions), order, false);
      forall r | r in order[1..] ensures r.0 != x.0 { assert r in order && r != x; }
      LeftBehind(o, p, refs0, d1, Counted(report, outcome), order[1..], strikes, x);
    }
  }

  lemma MovesAlong(o: Oracle, live: bool, done: bool, pending: set<string>, order: seq<Ref>, strikes: map<Ref, Strike>)
    requires order != [] && !(IsBare(o, order[0]) && StrikeAt(strikes, order[0]) != NothingStrikes)
    ensures StopsUnregistered(o, live, done, pending, order, strikes) <==>
            StopsUnregistered(o, live, done || IsBare(o, order[0]), pending, order[1..], strikes)
    ensures DiesUnmarked(o, order, strikes) <==> DiesUnmarked(o, order[1..], strikes)
    ensures NothingBare(o, order) <==> !IsBare(o, order[0]) && NothingBare(o, order[1..])
  {
    StopsNext(o, live, done, pending, order, strikes);
    DiesNext(o, order, strikes);
    assert forall j :: 0 < j < |order| ==> order[j] == order[1..][j - 1];
  }

  /** What the status will say at the end of a run that has come this far unstruck. */
  ghost predicate Foretold(o: Oracle, d: Disk, pending: set<string>, order: seq<Ref>, strikes: map<Ref, Strike>,
          end: Disk)
  {
    Says(o, end, StopsUnregistered(o, Live(d), HasDone(d.journal), pending, order, strikes),
         DiesUnmarked(o, order, strikes) || (Live(d) && !HasDone(d.journal) && NothingBare(o, order)))
  }

  lemma StatusWhenSkipped(o: Oracle, d: Disk, report: Report, pending: set<string>, order: seq<Ref>,
          strikes: map<Ref, Strike>)
    requires order != [] && !IsBare(o, order[0])
    requires Foretold(o, d, pending, order[1..], strikes,
               RunOver(o, d, Counted(report, SkippedOne), order[1..], strikes).disk)
    ensures Foretold(o, d, pending, order, strikes, RunOver(o, d, report, order, strikes).disk)
  {
    MovesAlong(o, Live(d), HasDone(d.journal), pending, order, strikes);
  }

  lemma StatusWhenThrough(o: Oracle, d: Disk, d1: Disk, report: Report, pending: set<string>, order: seq<Ref>,
          strikes: map<Ref, Strike>)
    requires order != [] && IsBare(o, order[0]) && StrikeAt(strikes, order[0]) == NothingStrikes
    requires MigrateOne(o, d, order[0], NothingStrikes) == (d1, RenamedOne) && Live(d1) == Live(d) &&
             HasDone(d1.journal)
    requires Foretold(o, d1, pending, order[1..], strikes,
               RunOver(o, d1, Counted(report, RenamedOne), order[1..], strikes).disk)
    ensures Foretold(o, d, pending, order, strikes, RunOver(o, d, report, order, strikes).disk)
  {
    MovesAlong(o, Live(d), HasDone(d.journal), pending, order, strikes);
  }

  lemma StatusAtEnd(o: Oracle, d: Disk, report: Report, pending: set<string>, strikes: map<Ref, Strike>)
    requires Unstruck(o, d, pending, [])
    ensures Foretold(o, d, pending, [], strikes, RunOver(o, d, report, [], strikes).disk)
  {
    NothingLeft(o, d, pending);
  }

  lemma {:induction false} StatusFrom(o: Oracle, p: Disk -> bool, refs0: set<Ref>, d: Disk, report: Report,
          pending: set<string>, order: seq<Ref>, strikes: map<Ref, Strike>)
    requires Steady(o, p, refs0) && p(d) && Unstruck(o, d, pending, order)
    ensures Foretold(o, d, pending, order, strikes, RunOver(o, d, report, order, strikes).disk)
    decreases |order|
  {
    if order == [] {
      StatusAtEnd(o, d, report, pending, strikes);
    } else if !IsBare(o, order[0]) {
      SkipsOne(o, d, pending, order);
      StatusFrom(o, p, refs0, d, Counted(report, SkippedOne), pending, order[1..], strikes);
      StatusWhenSkipped(o, d, report, pending, order, strikes);
    } else if StrikeAt(strikes, order[0]) == NothingStrikes {
      OneThrough(o, p, refs0, d, pending, order);
      var d1 := MigrateOne(o, d, order[0], NothingStrikes).0;
      StatusFrom(o, p, refs0, d1, Counted(report, RenamedOne), pending, order[1..], strikes);
      StatusWhenThrough(o, d, d1, report, pending, order, strikes);
    } else {
      StatusWhenStruck(o, p, refs0, d, report, pending, order, strikes);
    }
  }

  lemma StatusWhenStruck(o: Oracle, p: Disk -> bool, refs0: set<Ref>, d: Disk, report: Report, pending: set<string>,
          order: seq<Ref>, strikes: map<Ref, Strike>)
    requires Steady(o, p, refs0) && p(d) && Unstruck(o, d, pending, order)
    requires order != [] && IsBare(o, order[0]) && StrikeAt(strikes, order[0]) != NothingStrikes
    ensures Foretold(o, d, pending, order, strikes, RunOver(o, d, report, order, strikes).disk)
  {
    StruckFirst(o, Live(d), HasDone(d.journal), pending, order, strikes);
    assert !NothingBare(o, order) by { assert IsBare(o, order[0]); }
    var strike := StrikeAt(strikes, order[0]);
    if strike == EnqueueFails { StrikesUnregistered(o, d, pending, order); }
    else if strike == DiesRepointed { StrikesRepointed(o, p, refs0, d, pending, order); }
    else { StrikesElsewhere(o, p, refs0, d, report, pending, order, strikes); }
  }

  // ---------- for ever ----------

  /** No reference uses the name, and its entry is unfinished. */
  ghost predicate Forgotten(d: Disk, x: Ref) {
    NoRefTo(d, x.0) && x.0 in d.journal && Unfinished(d.journal[x.0])
  }

  lemma StepForgets(o: Oracle, p: Disk -> bool, refs0: set<Ref>, d: Disk, y: Ref, strike: Strike, x: Ref)
    requires Steady(o, p, refs0) && p(d) && Forgotten(d, x) && x in refs0 && IsBare(o, x) &&
             y in Refs(d.heads, d.versions)
    ensures var d1 := MigrateOne(o, d, y, strike).0;
            p(d1) && Forgotten(d1, x) && LeavesOthers(o, Refs(d.heads, d.versions), Refs(d1.heads, d1.versions), y)
  {
    assert Moves(o, d, y, strike);
    JournalOfOthers(o, d, y, strike);
    assert IsEntry(o, refs0, x.0);
    StaysGone(o, p, refs0, d, MigrateOne(o, d, y, strike).0, y, x.0);
  }

  lemma {:induction false} RunForgets(o: Oracle, p: Disk -> bool, refs0: set<Ref>, d: Disk, report: Report,
          order: seq<Ref>, strikes: map<Ref, Strike>, x: Ref)
    requires Steady(o, p, refs0) && p(d) && Forgotten(d, x) && x in refs0 && IsBare(o, x) &&
             Covers(o, Refs(d.heads, d.versions), order, false)
    ensures var end := RunOver(o, d, report, order, strikes).disk; p(end) && Forgotten(end, x)
    decreases |order|
  {
    if order != [] {
      var y, strike := order[0], StrikeAt(strikes, order[0]);
      var (d1, outcome) := MigrateOne(o, d, y, strike);
      assert y in order;
      StepForgets(o, p, refs0, d, y, strike, x);
      if outcome != Stopped {
        CoversRest(o, Refs(d.heads, d.versions), Refs(d1.heads, d1.versions), order, false);
        RunForgets(o, p, refs0, d1, Counted(report, outcome), order[1..], strikes, x);
      }
    }
  }

  lemma {:induction false} AttemptsForget(o: Oracle, p: Disk -> bool, refs0: set<Ref>, d: Disk, later: seq<Attempt>,
          x: Ref)
    requires Steady(o, p, refs0) && p(d) && Forgotten(d, x) && x in refs0 && IsBare(o, x) && Honest(o, d, later)
    ensures var end := AfterAttempts(o, d, later); p(end) && Forgotten(end, x)
  {
    if later != [] {
      var init, last := later[..|later| - 1], later[|later| - 1];
      AttemptsForget(o, p, refs0, d, init, x);
      RunForgets(o, p, refs0, AfterAttempts(o, d, init), Report(|last.order|, 0, 0, 0), last.order, last.strikes, x);
    }
  }

  // ---------- the journal after any attempts ----------

  predicate NoRefTo(d: Disk, b: string) {
    forall r :: r in Refs(d.heads, d.versions) ==> r.0 != b
  }

  /** Entries are of blobs there were under their bare hashes, done or unfinished; of those that are
      done no reference is left. */
  ghost predicate Tidy(o: Oracle, refs0: set<Ref>, d: Disk) {
    forall b :: b in d.journal ==>
      IsEntry(o, refs0, b) && (d.journal[b] == Done || Unfinished(d.journal[b])) &&
      (d.journal[b] == Done ==> NoRefTo(d, b))
  }

  ghost predicate IsEntry(o: Oracle, refs0: set<Ref>, b: string) {
    exists x :: x in refs0 && IsBare(o, x) && x.0 == b
  }

  lemma EntryOfOne(o: Oracle, d: Disk, y: Ref, strike: Strike)
    requires strike != NothingStrikes && (y.0 in d.journal ==> Unfinished(d.journal[y.0]))
    ensures var journal := MigrateOne(o, d, y, strike).0.journal; y.0 in journal ==> Unfinished(journal[y.0])
  {
  }

  lemma StepKeepsEntry(o: Oracle, p: Disk -> bool, refs0: set<Ref>, d: Disk, y: Ref, strike: Strike)
    requires Steady(o, p, refs0) && p(d) && Tidy(o, refs0, d) && y in Refs(d.heads, d.versions) && IsBare(o, y)
    ensures var d1 := MigrateOne(o, d, y, strike).0;
            y.0 in d1.journal ==>
              Unfinished(d1.journal[y.0]) || (d1.journal[y.0] == Done && NoRefTo(d1, y.0))
  {
    var refs, d1 := Refs(d.heads, d.versions), MigrateOne(o, d, y, strike).0;
    if strike == NothingStrikes {
      assert Moves(o, d, y, strike);
      assert forall r, q :: r in refs && q in refs && r.0 == q.0 ==> r == q;
      NameIsFree(o, refs, y);
      JournalOfOne(o, d, y);
    } else {
      EntryOfOne(o, d, y, strike);
    }
  }

  /** What no reference is left of comes back in none. */
  lemma StaysGone(o: Oracle, p: Disk -> bool, refs0: set<Ref>, d: Disk, d1: Disk, y: Ref, b: string)
    requires Steady(o, p, refs0) && p(d) && y in Refs(d.heads, d.versions) && IsEntry(o, refs0, b) && NoRefTo(d, b)
    requires LeavesOthers(o, Refs(d.heads, d.versions), Refs(d1.heads, d1.versions), y)
    ensures NoRefTo(d1, b)
  {
    var x :| x in refs0 && IsBare(o, x) && x.0 == b;
    assert o.blobName(y.1) != x.0;
  }

  lemma TidyButForOne(o: Oracle, refs0: set<Ref>, d: Disk, d1: Disk, y: Ref)
    requires Tidy(o, refs0, d) && y in refs0 && IsBare(o, y)
    requires forall b :: b in d.journal && d.journal[b] == Done ==> NoRefTo(d1, b)
    requires forall b :: b != y.0 ==>
               (b in d1.journal <==> b in d.journal) && (b in d1.journal ==> d1.journal[b] == d.journal[b])
    requires y.0 in d1.journal ==> Unfinished(d1.journal[y.0]) || (d1.journal[y.0] == Done && NoRefTo(d1, y.0))
    ensures Tidy(o, refs0, d1)
  {
    assert IsEntry(o, refs0, y.0);
  }

  lemma StepKeepsTidy(o: Oracle, p: Disk -> bool, refs0: set<Ref>, d: Disk, y: Ref, strike: Strike)
    requires Steady(o, p, refs0) && p(d) && Tidy(o, refs0, d) && y in Refs(d.heads, d.versions)
    ensures var d1 := MigrateOne(o, d, y, strike).0;
            p(d1) && Tidy(o, refs0, d1) && LeavesOthers(o, Refs(d.heads, d.versions), Refs(d1.heads, d1.versions), y)
  {
    var d1 := MigrateOne(o, d, y, strike).0;
    assert p(d1) && Moves(o, d, y, strike);
    if IsBare(o, y) {
      StepKeepsEntry(o, p, refs0, d, y, strike);
      JournalOfOthers(o, d, y, strike);
      forall b | b in d.journal && d.journal[b] == Done ensures NoRefTo(d1, b) {
        StaysGone(o, p, refs0, d, d1, y, b);
      }
      assert y in refs0;
      TidyButForOne(o, refs0, d, d1, y);
    }
  }

  lemma {:induction false} RunKeepsTidy(o: Oracle, p: Disk -> bool, refs0: set<Ref>, d: Disk, report: Report,
          order: seq<Ref>, strikes: map<Ref, Strike>)
    requires Steady(o, p, refs0) && p(d) && Tidy(o, refs0, d) && Covers(o, Refs(d.heads, d.versions), order, false)
    ensures var end := RunOver(o, d, report, order, strikes).disk; p(end) && Tidy(o, refs0, end)
    decreases |order|
  {
    if order != [] {
      var y, strike := order[0], StrikeAt(strikes, order[0]);
      var (d1, outcome) := MigrateOne(o, d, y, strike);
      assert y in order;
      StepKeepsTidy(o, p, refs0, d, y, strike);
      if outcome != Stopped {
        CoversRest(o, Refs(d.heads, d.versions), Refs(d1.heads, d1.versions), order, false);
        RunKeepsTidy(o, p, refs0, d1, Counted(report, outcome), order[1..], strikes);
      }
    }
  }

  lemma {:induction false} AttemptsKeepTidy(o: Oracle, p: Disk -> bool, refs0: set<Ref>, d: Disk,
          attempts: seq<Attempt>)
    requires Steady(o, p, refs0) && p(d) && Tidy(o, refs0, d) && Honest(o, d, attempts)
    ensures var end := AfterAttempts(o, d, attempts); p(end) && Tidy(o, refs0, end)
  {
    if attempts != [] {
      var init, last := attempts[..|attempts| - 1], attempts[|attempts| - 1];
      AttemptsKeepTidy(o, p, refs0, d, init);
      RunKeepsTidy(o, p, refs0, AfterAttempts(o, d, init), Report(|last.order|, 0, 0, 0), last.order, last.strikes);
    }
  }

  /** An unfinished entry that no reference is left of. */
  ghost predicate Forgets(d: Disk) {
    exists b :: b in Registered(d.journal) && NoRefTo(d, b)
  }

  lemma TidyIsUnstruck(o: Oracle, p: Disk -> bool, refs0: set<Ref>, d: Disk, order: seq<Ref>)
    requires Steady(o, p, refs0) && p(d) && Tidy(o, refs0, d) && !Forgets(d)
    requires Enumerates(order, Refs(d.heads, d.versions))
    ensures Unstruck(o, d, Registered(d.journal), order)
  {
    forall b | b in d.journal ensures d.journal[b] == Done || IsAhead(o, order, b) {
      if d.journal[b] != Done {
        assert b in Registered(d.journal) && !NoRefTo(d, b);
        var r :| r in Refs(d.heads, d.versions) && r.0 == b;
        var x :| x in refs0 && IsBare(o, x) && x.0 == b;
        assert o.blobName(r.1) != x.0;
        assert r in order;
      }
    }
  }

  lemma ForgottenStays(o: Oracle, p: Disk -> bool, refs0: set<Ref>, d: Disk, order: seq<Ref>,
          strikes: map<Ref, Strike>)
    requires Steady(o, p, refs0) && p(d) && Tidy(o, refs0, d) && Forgets(d)
    requires Enumerates(order, Refs(d.heads, d.versions))
    ensures Needs(RunOver(o, d, Report(|order|, 0, 0, 0), order, strikes).disk)
  {
    var b :| b in Registered(d.journal) && NoRefTo(d, b);
    var x :| x in refs0 && IsBare(o, x) && x.0 == b;
    RunForgets(o, p, refs0, d, Report(|order|, 0, 0, 0), order, strikes, x);
  }

  /** What the status says after an attempt, whatever struck it, and whatever struck any number of
      attempts before it.  Where an unfinished entry is left that no reference goes with, it asks
      for a migration.  Otherwise it says that nothing is left, wrongly, exactly when the attempt
      failed to register a blob, with none registered from there on, after some had gone through or
      with no live content at all; and it asks for a migration, wrongly, exactly when the attempt
      died over the last blob after repointing its rows, or when every blob was on its keyed name
      and none is on record as done. */
  lemma StatusAfterAttempt(o: Oracle, d0: Disk, earlier: seq<Attempt>, order: seq<Ref>, strikes: map<Ref, Strike>)
    requires Sane(o, Refs(d0.heads, d0.versions)) && Held(o, Refs(d0.heads, d0.versions), d0.files) &&
             d0.journal == map[] && Honest(o, d0, earlier)
    requires var d := AfterAttempts(o, d0, earlier); Enumerates(order, Refs(d.heads, d.versions))
    ensures var d := AfterAttempts(o, d0, earlier);
            var end := RunOver(o, d, Report(|order|, 0, 0, 0), order, strikes).disk;
            if Forgets(d) then Needs(end)
            else Foretold(o, d, Registered(d.journal), order, strikes, end)
  {
    StartsUnderWay(o, d0);
    UnderWayIsSteady(o, d0);
    var p, refs0, d := (s: Disk) => UnderWay(o, d0, s), Refs(d0.heads, d0.versions), AfterAttempts(o, d0, earlier);
    AttemptsKeepTidy(o, p, refs0, d0, earlier);
    if Forgets(d) {
      ForgottenStays(o, p, refs0, d, order, strikes);
    } else {
      TidyIsUnstruck(o, p, refs0, d, order);
      StatusFrom(o, p, refs0, d, Report(|order|, 0, 0, 0), Registered(d.journal), order, strikes);
    }
  }

  /** A run that died after repointing the rows of a blob and before saying so leaves an entry that
      no later run comes back to: after any number of further attempts, struck or not, the
      status still asks for a migration. */
  lemma StatusAsksForEver(o: Oracle, d: Disk, x: Ref, later: seq<Attempt>)
    requires Sane(o, Refs(d.heads, d.versions)) && Held(o, Refs(d.heads, d.versions), d.files) && x.0 !in d.journal
    requires x in Refs(d.heads, d.versions) && IsBare(o, x)
    requires Honest(o, MigrateOne(o, d, x, DiesRepointed).0, later)
    ensures Needs(AfterAttempts(o, MigrateOne(o, d, x, DiesRepointed).0, later))
  {
    StartsUnderWay(o, d);
    UnderWayIsSteady(o, d);
    var p, refs := (s: Disk) => UnderWay(o, d, s), Refs(d.heads, d.versions);
    DeathForgets(o, p, refs, d, x);
    AttemptsForget(o, p, refs, MigrateOne(o, d, x, DiesRepointed).0, later, x);
  }

  lemma DeathForgets(o: Oracle, p: Disk -> bool, refs0: set<Ref>, d: Disk, x: Ref)
    requires Steady(o, p, refs0) && p(d) && x in Refs(d.heads, d.versions) && IsBare(o, x) && x.0 !in d.journal
    ensures var d1 := MigrateOne(o, d, x, DiesRepointed).0; p(d1) && Forgotten(d1, x)
  {
    var refs, d1 := Refs(d.heads, d.versions), MigrateOne(o, d, x, DiesRepointed).0;
    assert p(d1) && Moves(o, d, x, DiesRepointed);
    assert Refs(d1.heads, d1.versions) == refs - {x} + {(o.blobName(x.1), x.1)} &&
           d1.journal == Enqueued(d.journal, x.0);
    assert forall r, q :: r in refs && q in refs && r.0 == q.0 ==> r == q;
    NameIsFree(o, refs, x);
  }

  lemma NameIsFree(o: Oracle, refs: set<Ref>, x: Ref)
    requires x in refs && IsBare(o, x) && forall r, q :: r in refs && q in refs && r.0 == q.0 ==> r == q
    ensures forall r :: r in refs - {x} + {(o.blobName(x.1), x.1)} ==> r.0 != x.0
  {
  }
}
