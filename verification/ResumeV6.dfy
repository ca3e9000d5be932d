/** When the migration to schema 6 can be stopped and started again, and when it can not. */
module ResumeV6 {
  import opened Options
  import opened Tables
  import opened PlanV6
  import opened SchemaV6

  // ---------- ids that have to be replaced ----------

  /** An object that an earlier attempt moved under an id the present plan does not have: its
      name stays taken, so the head planned under the same name is refused, and the migration
      never finishes. */
  lemma NeverFinishes(d: Db, plan: Plan, i: nat, f: string, cut: Option<Cut>)
    requires Needs(d) && i < |plan.heads| && f in d.heads && d.heads[f].pseudonym == plan.heads[i].pseudonym &&
             !IsHeadId(plan, f)
    ensures Needs(From(d, plan, 0, cut))
  {
    var at := |plan.heads| + |plan.tombs| + i;
    var p := (s: Db, j: nat) => Needs(s) && f in s.heads && s.heads[f].pseudonym == plan.heads[i].pseudonym;
    forall s, j | 0 <= j < at && p(s, j) && Commit(s, TxAt(plan, j)).Some?
      ensures p(Commit(s, TxAt(plan, j)).value, j + 1)
    {
      TxIs(plan, j);
      if |plan.heads| + |plan.tombs| <= j { assert IsHeadId(plan, plan.heads[j - |plan.heads| - |plan.tombs|].fileId); }
    }
    forall s | p(s, at) ensures Commit(s, TxAt(plan, at)).None? {
      TxIs(plan, at);
      assert IsHeadId(plan, plan.heads[i].fileId);
      assert !UniqueAllows(s.heads, plan.heads[i]);
    }
    forall s, j | 0 <= j <= at && p(s, j) ensures Needs(s) && Needs(MarkFailed(s, TxAt(plan, j))) {
    }
    RefusedAt(plan, d, 0, at, cut, p);
  }

  lemma {:induction false} RefusedAt(plan: Plan, d: Db, k: nat, at: nat, cut: Option<Cut>, p: (Db, nat) -> bool)
    requires k <= at < Count(plan) - 1 && p(d, k)
    requires forall s, j :: 0 <= j < at && p(s, j) && Commit(s, TxAt(plan, j)).Some? ==>
             p(Commit(s, TxAt(plan, j)).value, j + 1)
    requires forall s :: p(s, at) ==> Commit(s, TxAt(plan, at)).None?
    requires forall s, j :: 0 <= j <= at && p(s, j) ==> Needs(s) && Needs(MarkFailed(s, TxAt(plan, j)))
    ensures Needs(From(d, plan, k, cut))
    decreases at - k
  {
    if !(cut.Some? && cut.value.after <= k) && Commit(d, TxAt(plan, k)).Some? {
      RefusedAt(plan, Commit(d, TxAt(plan, k)).value, k + 1, at, cut, p);
    }
  }

  /** So ids that have to be replaced cost the migration its second chance: when one attempt is
      cut right after it moved a live row under a random id, every later one, with its own
      random ids, stops at that row. */
  lemma ReplacedIdsDoNotResume(d0: Db, files: seq<LegacyFile>, versions: seq<LegacyVersion>, probe: Probe, i: nat,
          random: seq<string>, other: seq<string>, cut: Option<Cut>)
    requires OwnPaths(files) && Unmigrated(d0) && Fresh(random, files) && Fresh(other, files) &&
             forall id :: id in random ==> id !in other
    requires var plan := PlanOf(files, versions, probe, random); i < |plan.heads| && plan.heads[i].fileId in random
    ensures var plan := PlanOf(files, versions, probe, random);
            var d1 := Attempted(d0, files, versions, probe, random,
              Some(Cut(|plan.heads| + |plan.tombs| + i + 1, false)));
            Needs(d1) && Needs(Attempted(d1, files, versions, probe, other, cut))
  {
    var plan, plan' := PlanOf(files, versions, probe, random), PlanOf(files, versions, probe, other);
    PlanIsOrderly(files, versions, probe, random);
    RowsAreConserved(files, versions, probe, random);
    RowsAreConserved(files, versions, probe, other);
    var f, after := plan.heads[i].fileId, |plan.heads| + |plan.tombs| + i + 1;
    var d1 := Attempted(d0, files, versions, probe, random, Some(Cut(after, false)));
    CutLeavesHead(d0, plan, i);
    NotPlannedElsewhere(files, versions, probe, random, other, f);
    NeverFinishes(d1, plan', i, f, cut);
  }

  /** The same of a deleted row: whatever a later attempt does, it leaves a tombstone that a single
      run would not have. */
  lemma ReplacedTombstoneStays(d0: Db, files: seq<LegacyFile>, versions: seq<LegacyVersion>, probe: Probe, i: nat,
          random: seq<string>, other: seq<string>, cut: Option<Cut>)
    requires OwnPaths(files) && Unmigrated(d0) && Fresh(random, files) && Fresh(other, files) &&
             forall id :: id in random ==> id !in other
    requires var plan := PlanOf(files, versions, probe, random); i < |plan.tombs| && plan.tombs[i].fileId in random
    ensures var plan := PlanOf(files, versions, probe, random);
            var d1 := Attempted(d0, files, versions, probe, random,
              Some(Cut(2 * |plan.heads| + |plan.tombs| + i + 1, false)));
            plan.tombs[i].fileId in Attempted(d1, files, versions, probe, other, cut).tombs &&
            plan.tombs[i].fileId !in Attempted(d0, files, versions, probe, other, None).tombs
  {
    var plan, plan' := PlanOf(files, versions, probe, random), PlanOf(files, versions, probe, other);
    var f := plan.tombs[i].fileId;
    var d1 := Attempted(d0, files, versions, probe, random, Some(Cut(2 * |plan.heads| + |plan.tombs| + i + 1, false)));
    PlanIsOrderly(files, versions, probe, random);
    CutLeavesTombstone(d0, plan, i);
    TombstonesStay(d1, plan', 0, f, cut);
    NotPlannedElsewhere(files, versions, probe, random, other, f);
    PlanIsOrderly(files, versions, probe, other);
    SingleRunLacks(d0, plan', f);
  }

  lemma PlanIsOrderly(files: seq<LegacyFile>, versions: seq<LegacyVersion>, probe: Probe, random: seq<string>)
    requires OwnPaths(files) && Fresh(random, files)
    ensures Orderly(PlanOf(files, versions, probe, random))
  {
    IdsAreDistinct(files, versions, probe, random);
    PathsStayOwn(files, versions, probe, random);
  }

  lemma SingleRunLacks(d0: Db, plan: Plan, f: string)
    requires Orderly(plan) && Unmigrated(d0) && !IsTombId(plan, f)
    ensures f !in From(d0, plan, 0, None).tombs
  {
    UncutFinishes(d0, d0, plan);
  }

  /** A random id of one attempt is in no plan made with other random ids. */
  lemma NotPlannedElsewhere(files: seq<LegacyFile>, versions: seq<LegacyVersion>, probe: Probe, random: seq<string>,
          other: seq<string>, f: string)
    requires Fresh(random, files) && Fresh(other, files) && f in random && f !in other
    ensures !IsHeadId(PlanOf(files, versions, probe, other), f) && !IsTombId(PlanOf(files, versions, probe, other), f)
  {
    IdsComeFromRows(files, versions, probe, other);
  }

  lemma {:induction false} TombstonesStay(d: Db, plan: Plan, k: nat, f: string, cut: Option<Cut>)
    requires k <= Count(plan) && f in d.tombs
    ensures f in From(d, plan, k, cut).tombs
    decreases Count(plan) - k
  {
    if k < Count(plan) && !(cut.Some? && cut.value.after <= k) && Commit(d, TxAt(plan, k)).Some? {
      TombstonesStay(Commit(d, TxAt(plan, k)).value, plan, k + 1, f, cut);
    }
  }

  lemma CutLeavesTombstone(d0: Db, plan: Plan, i: nat)
    requires Orderly(plan) && Unmigrated(d0) && i < |plan.tombs|
    ensures plan.tombs[i].fileId in From(d0, plan, 0, Some(Cut(2 * |plan.heads| + |plan.tombs| + i + 1, false))).tombs
  {
    var after, id := 2 * |plan.heads| + |plan.tombs| + i + 1, plan.tombs[i].fileId;
    assert after < Count(plan);
    forall d: Db | UnderWay(d0, d, plan) && Covered(d, plan, after) ensures id in d.tombs {
      TombstoneIsCovered(d, plan, i);
    }
    CutReaches(d0, plan, after, (d: Db) => id in d.tombs);
  }

  lemma TombstoneIsCovered(d: Db, plan: Plan, i: nat)
    requires i < |plan.tombs| && Covered(d, plan, 2 * |plan.heads| + |plan.tombs| + i + 1)
    ensures plan.tombs[i].fileId in d.tombs
  {
    TxIs(plan, 2 * |plan.heads| + |plan.tombs| + i);
    assert InPlace(d, TxAt(plan, 2 * |plan.heads| + |plan.tombs| + i));
  }

  /** Ids are those of the rows, or random. */
  lemma IdsComeFromRows(files: seq<LegacyFile>, versions: seq<LegacyVersion>, probe: Probe, random: seq<string>)
    requires Fresh(random, files)
    ensures forall h :: h in PlanOf(files, versions, probe, random).heads ==>
            h.fileId in random || exists f :: f in files && f.fileId == h.fileId
    ensures forall t :: t in PlanOf(files, versions, probe, random).tombs ==>
            t.fileId in random || exists f :: f in files && f.fileId == t.fileId
  {
    LiveIdsAreOwn(files, |files|, probe, random);
    assert files[..|files|] == files;
    var live := LivePass(files, probe, random);
    DeletedIdsAreOwn(live, files, |files|, versions, random);
    var plan, p := PlanOf(files, versions, probe, random), DeletedPass(live, files, versions, random);
    forall t | t in plan.tombs ensures t.fileId in random || exists f :: f in files && f.fileId == t.fileId {
      var j :| 0 <= j < |plan.tombs| && plan.tombs[j] == t;
      assert t.fileId == p.tombs[j].fileId;
    }
  }

  ghost predicate KeepsHead(d: Db, h: Head) {
    Needs(d) && h.fileId in d.heads && d.heads[h.fileId] == h
  }

  lemma CutLeavesHead(d0: Db, plan: Plan, i: nat)
    requires Orderly(plan) && Unmigrated(d0) && i < |plan.heads|
    ensures KeepsHead(From(d0, plan, 0, Some(Cut(|plan.heads| + |plan.tombs| + i + 1, false))), plan.heads[i])
  {
    var after := |plan.heads| + |plan.tombs| + i + 1;
    forall d: Db | UnderWay(d0, d, plan) && Covered(d, plan, after) ensures KeepsHead(d, plan.heads[i]) {
      HeadAfterCut(d0, d, plan, i);
    }
    CutReaches(d0, plan, after, (d: Db) => KeepsHead(d, plan.heads[i]));
  }

  lemma HeadAfterCut(d0: Db, d: Db, plan: Plan, i: nat)
    requires DistinctIds(plan) && Needs(d0) && i < |plan.heads|
    requires UnderWay(d0, d, plan) && Covered(d, plan, |plan.heads| + |plan.tombs| + i + 1)
    ensures KeepsHead(d, plan.heads[i])
  {
    assert Needs(d) && HeadsFit(plan, d.heads);
    assert plan.heads[i].fileId in d.heads by { HeadIsCovered(d, plan, i); }
    HeadIsAsPlanned(plan, d.heads, i);
  }

  /** Cut after so many transactions, an attempt leaves exactly those in place. */
  lemma CutCovers(d0: Db, plan: Plan, after: nat) returns (d: Db)
    requires Orderly(plan) && Unmigrated(d0) && after < Count(plan)
    ensures d == From(d0, plan, 0, Some(Cut(after, false))) && UnderWay(d0, d, plan) && Covered(d, plan, after)
  {
    var p := (s: Db, j: nat) => j <= Count(plan) && UnderWay(d0, s, plan) && Covered(s, plan, j);
    EveryStepKeeps(d0, plan, p);
    d := CutAt(plan, d0, 0, Cut(after, false), p);
  }

  /** What holds whenever exactly those are in place holds after the cut. */
  lemma CutReaches(d0: Db, plan: Plan, after: nat, q: Db -> bool)
    requires Orderly(plan) && Unmigrated(d0) && after < Count(plan)
    requires forall d: Db :: UnderWay(d0, d, plan) && Covered(d, plan, after) ==> q(d)
    ensures q(From(d0, plan, 0, Some(Cut(after, false))))
  {
    var d := CutCovers(d0, plan, after);
  }

  lemma HeadIsCovered(d: Db, plan: Plan, i: nat)
    requires i < |plan.heads| && Covered(d, plan, |plan.heads| + |plan.tombs| + i + 1)
    ensures plan.heads[i].fileId in d.heads
  {
    TxIs(plan, |plan.heads| + |plan.tombs| + i);
    assert InPlace(d, TxAt(plan, |plan.heads| + |plan.tombs| + i));
  }

  lemma HeadIsAsPlanned(plan: Plan, heads: map<string, Head>, i: nat)
    requires DistinctIds(plan) && i < |plan.heads| && HeadsFit(plan, heads) && plan.heads[i].fileId in heads
    ensures heads[plan.heads[i].fileId] == plan.heads[i]
  {
    assert WantsHead(plan, heads[plan.heads[i].fileId]);
  }

  lemma {:induction false} CutAt(plan: Plan, d: Db, k: nat, cut: Cut, p: (Db, nat) -> bool) returns (d': Db)
    requires k <= cut.after < Count(plan) && !cut.failing && p(d, k)
    requires forall s, j :: 0 <= j < Count(plan) - 1 && p(s, j) ==>
             Commit(s, TxAt(plan, j)).Some? && p(Commit(s, TxAt(plan, j)).value, j + 1)
    ensures d' == From(d, plan, k, Some(cut)) && p(d', cut.after)
    decreases cut.after - k
  {
    if k == cut.after {
      d' := d;
    } else {
      d' := CutAt(plan, Commit(d, TxAt(plan, k)).value, k + 1, cut, p);
    }
  }

  // ---------- a deleted row moved twice ----------

  /** On the way of a second attempt: the tombstone of the first one is still there, and the plan's
      own for the same row comes with its transaction. */
  ghost predicate Doubling(plan: Plan, t: Tombstone, i: nat, tombs: map<string, Tombstone>, j: nat)
    requires i < |plan.tombs|
  {
    t.fileId in tombs && tombs[t.fileId] == t &&
    (j > 2 * |plan.heads| + |plan.tombs| + i ==>
      plan.tombs[i].fileId in tombs && tombs[plan.tombs[i].fileId] == plan.tombs[i])
  }

  ghost predicate KeepsHeads(plan: Plan, s: Db, tx: Tx) {
    Commit(s, tx).Some? && HeadsFit(plan, Commit(s, tx).value.heads)
  }

  lemma ObjectKeepsHeads(plan: Plan, s: Db, i: nat)
    requires Orderly(plan) && i < |plan.heads| && HeadsFit(plan, s.heads)
    ensures KeepsHeads(plan, s, MoveObject(plan.heads[i], plan.versions))
  {
    NotRefused(plan, s.heads, i);
    HeadGoesIn(plan, s.heads, i);
  }

  lemma HeadsGoOn(plan: Plan, s: Db, j: nat)
    requires Orderly(plan) && j < Count(plan) - 1 && HeadsFit(plan, s.heads)
    ensures KeepsHeads(plan, s, TxAt(plan, j))
  {
    forall i | 0 <= i < |plan.heads| ensures KeepsHeads(plan, s, MoveObject(plan.heads[i], plan.versions)) {
      ObjectKeepsHeads(plan, s, i);
    }
    ByKind(plan, j, tx => KeepsHeads(plan, s, tx));
  }

  lemma DoublingGoesOn(plan: Plan, t: Tombstone, i: nat, s: Db, j: nat)
    requires DistinctIds(plan) && i < |plan.tombs| && j < Count(plan) - 1 && Doubling(plan, t, i, s.tombs, j) &&
             !IsTombId(plan, t.fileId)
    requires Commit(s, TxAt(plan, j)).Some?
    ensures Doubling(plan, t, i, Commit(s, TxAt(plan, j)).value.tombs, j + 1)
  {
    TxIs(plan, j);
    if 2 * |plan.heads| + |plan.tombs| <= j {
      TombstoneJoins(plan, t, i, s.tombs, j - 2 * |plan.heads| - |plan.tombs|);
    }
  }

  lemma TombstoneJoins(plan: Plan, t: Tombstone, i: nat, tombs: map<string, Tombstone>, m: nat)
    requires DistinctIds(plan) && i < |plan.tombs| && m < |plan.tombs| && !IsTombId(plan, t.fileId)
    requires t.fileId in tombs && tombs[t.fileId] == t
    requires m > i ==> plan.tombs[i].fileId in tombs && tombs[plan.tombs[i].fileId] == plan.tombs[i]
    ensures var tombs' := tombs[plan.tombs[m].fileId := plan.tombs[m]];
            tombs'[t.fileId] == t && (m >= i ==>
              plan.tombs[i].fileId in tombs' && tombs'[plan.tombs[i].fileId] == plan.tombs[i])
  {
    assert plan.tombs[m].fileId != t.fileId;
  }

  lemma DoublingEnds(plan: Plan, t: Tombstone, i: nat, d: Db)
    requires Orderly(plan) && i < |plan.tombs| && HeadsFit(plan, d.heads) && Doubling(plan, t, i, d.tombs, 0) &&
             !IsTombId(plan, t.fileId)
    ensures var tombs := From(d, plan, 0, None).tombs;
            t.fileId in tombs && tombs[t.fileId] == t && plan.tombs[i].fileId in tombs &&
              tombs[plan.tombs[i].fileId] == plan.tombs[i]
  {
    var p := (s: Db, j: nat) => HeadsFit(plan, s.heads) && Doubling(plan, t, i, s.tombs, j);
    forall s, j | 0 <= j < Count(plan) - 1 && p(s, j)
      ensures Commit(s, TxAt(plan, j)).Some? && p(Commit(s, TxAt(plan, j)).value, j + 1)
    {
      HeadsGoOn(plan, s, j);
      DoublingGoesOn(plan, t, i, s, j);
    }
    var last := RunThrough(plan, d, 0, p);
    TxIs(plan, Count(plan) - 1);
  }

  /** Two tombstones that stand for the same deleted path. */
  ghost predicate DoubledPath(tombs: map<string, Tombstone>, path: string) {
    exists f, g :: f in tombs && g in tombs && f != g && tombs[f].lastPseudonym == path &&
      tombs[g].lastPseudonym == path
  }

  /** Where only deleted rows had to be replaced, the second attempt goes through, and leaves two
      tombstones for every row the first had moved under a random id. */
  lemma ReplacedTombstonesAreDoubled(d0: Db, files: seq<LegacyFile>, versions: seq<LegacyVersion>, probe: Probe, i: nat,
          random: seq<string>, other: seq<string>)
    requires OwnPaths(files) && Unmigrated(d0) && Fresh(random, files) && Fresh(other, files) &&
             forall id :: id in random ==> id !in other
    requires GoodLiveIds(files)
    requires var plan := PlanOf(files, versions, probe, random); i < |plan.tombs| && plan.tombs[i].fileId in random
    ensures var plan := PlanOf(files, versions, probe, random);
            var d1 := Attempted(d0, files, versions, probe, random,
              Some(Cut(2 * |plan.heads| + |plan.tombs| + i + 1, false)));
            DoubledPath(Attempted(d1, files, versions, probe, other, None).tombs, plan.tombs[i].lastPseudonym)
  {
    var plan, plan' := PlanOf(files, versions, probe, random), PlanOf(files, versions, probe, other);
    var t, cut := plan.tombs[i], Cut(2 * |plan.heads| + |plan.tombs| + i + 1, false);
    var d1 := Attempted(d0, files, versions, probe, random, Some(cut));
    PlanIsOrderly(files, versions, probe, random);
    PlanIsOrderly(files, versions, probe, other);
    SamePlaces(files, versions, probe, i, random, other);
    FirstAttemptLeaves(d0, plan, i);
    NotPlannedElsewhere(files, versions, probe, random, other, t.fileId);
    HeadsFitBoth(plan, plan', d1.heads);
    DoublingEnds(plan', t, i, d1);
  }

  lemma HeadsFitBoth(plan: Plan, plan': Plan, heads: map<string, Head>)
    requires plan.heads == plan'.heads && HeadsFit(plan, heads)
    ensures HeadsFit(plan', heads)
  {
    forall f | f in heads ensures WantsHead(plan', heads[f]) { assert WantsHead(plan, heads[f]); }
  }

  ghost predicate LeftTombstone(plan: Plan, t: Tombstone, d: Db) {
    Needs(d) && HeadsFit(plan, d.heads) && t.fileId in d.tombs && d.tombs[t.fileId] == t
  }

  lemma FirstAttemptLeaves(d0: Db, plan: Plan, i: nat)
    requires Orderly(plan) && Unmigrated(d0) && i < |plan.tombs|
    ensures LeftTombstone(plan, plan.tombs[i],
              From(d0, plan, 0, Some(Cut(2 * |plan.heads| + |plan.tombs| + i + 1, false))))
  {
    var after := 2 * |plan.heads| + |plan.tombs| + i + 1;
    forall d: Db | UnderWay(d0, d, plan) && Covered(d, plan, after) ensures LeftTombstone(plan, plan.tombs[i], d) {
      TombstoneIsCovered(d, plan, i);
      TombIsAsPlanned(plan, d.tombs, i);
    }
    CutReaches(d0, plan, after, (d: Db) => LeftTombstone(plan, plan.tombs[i], d));
  }

  lemma TombIsAsPlanned(plan: Plan, tombs: map<string, Tombstone>, i: nat)
    requires DistinctIds(plan) && i < |plan.tombs| && TombsFitIn(plan, tombs) && plan.tombs[i].fileId in tombs
    ensures tombs[plan.tombs[i].fileId] == plan.tombs[i]
  {
    assert WantsTomb(plan, tombs[plan.tombs[i].fileId]);
  }

  /** With live ids kept, plans made with other random ids have the same heads, and the same paths
      among their tombstones. */
  lemma SamePlaces(files: seq<LegacyFile>, versions: seq<LegacyVersion>, probe: Probe, i: nat, random: seq<string>,
          other: seq<string>)
    requires GoodLiveIds(files) && i < |PlanOf(files, versions, probe, random).tombs|
    ensures var plan, plan' := PlanOf(files, versions, probe, random), PlanOf(files, versions, probe, other);
            plan.heads == plan'.heads && |plan.tombs| == |plan'.tombs| &&
              plan.tombs[i].lastPseudonym == plan'.tombs[i].lastPseudonym
  {
    assert files[..|files|] == files;
    GoodLiveKept(files, |files|, probe, random);
    GoodLiveKept(files, |files|, probe, other);
    DeletedKeepsHeads(LivePass(files, probe, random), files, versions, random);
    DeletedKeepsHeads(LivePass(files, probe, other), files, versions, other);
    RowsAreConserved(files, versions, probe, random);
    RowsAreConserved(files, versions, probe, other);
  }

  // ---------- exactly when it resumes ----------

  ghost predicate Drawn(plan: Plan, random: seq<string>) {
    (exists i :: 0 <= i < |plan.heads| && plan.heads[i].fileId in random) ||
    exists i :: 0 <= i < |plan.tombs| && plan.tombs[i].fileId in random
  }

  lemma {:induction false} LiveKeptOrDrawn(files: seq<LegacyFile>, probe: Probe, random: seq<string>)
    ensures var p := LivePass(files, probe, random);
            p.tombs == [] && |p.heads| == |Live(files)| &&
            forall i :: 0 <= i < |p.heads| ==> p.heads[i].fileId == Live(files)[i].fileId || p.heads[i].fileId in random
  {
    if files != [] { LiveKeptOrDrawn(files[..|files| - 1], probe, random); }
  }

  lemma {:induction false} DeletedKeptOrDrawn(start: Placed, files: seq<LegacyFile>, versions: seq<LegacyVersion>,
          random: seq<string>)
    requires start.tombs == []
    ensures var p := DeletedPass(start, files, versions, random);
            |p.tombs| == |Deleted(files)| && forall i :: 0 <= i < |p.tombs| ==>
              p.tombs[i].fileId == Deleted(files)[i].fileId || p.tombs[i].fileId in random
  {
    if files != [] { DeletedKeptOrDrawn(start, files[..|files| - 1], versions, random); }
  }

  lemma KeptUnlessDrawn(files: seq<LegacyFile>, versions: seq<LegacyVersion>, probe: Probe, random: seq<string>)
    requires !Drawn(PlanOf(files, versions, probe, random), random)
    ensures KeptIds(PlanOf(files, versions, probe, random), files)
  {
    LiveKeptOrDrawn(files, probe, random);
    DeletedKeepsHeads(LivePass(files, probe, random), files, versions, random);
    DeletedKeptOrDrawn(LivePass(files, probe, random), files, versions, random);
    var plan, p := PlanOf(files, versions, probe, random),
      DeletedPass(LivePass(files, probe, random), files, versions, random);
    assert forall i :: 0 <= i < |plan.tombs| ==> plan.tombs[i].fileId == p.tombs[i].fileId;
  }

  ghost predicate KeptIds(plan: Plan, files: seq<LegacyFile>) {
    |plan.heads| == |Live(files)| && |plan.tombs| == |Deleted(files)| &&
    (forall i :: 0 <= i < |plan.heads| ==> plan.heads[i].fileId == Live(files)[i].fileId) &&
    forall i :: 0 <= i < |plan.tombs| ==> plan.tombs[i].fileId == Deleted(files)[i].fileId
  }

  /** A row's place in the plan. */
  ghost predicate PlacedAt(plan: Plan, row: LegacyFile, i: nat) {
    if row.deleted then i < |plan.tombs| && plan.tombs[i].fileId == row.fileId
    else i < |plan.heads| && plan.heads[i].fileId == row.fileId
  }

  lemma PlaceOf(plan: Plan, files: seq<LegacyFile>, n: nat) returns (i: nat)
    requires KeptIds(plan, files) && n < |files|
    ensures PlacedAt(plan, files[n], i) && i < |RowsAt(files, files[n].deleted)| &&
            RowsAt(files, files[n].deleted)[i] == n
  {
    LiveIsSubsequence(files);
    DeletedIsSubsequence(files);
    i := RowIsAt(files, n);
  }

  lemma KeptAndDistinctIsGood(plan: Plan, files: seq<LegacyFile>)
    requires KeptIds(plan, files) && DistinctIds(plan)
    ensures GoodIds(files)
  {
    forall n | 0 <= n < |files| ensures IsHex32(files[n].fileId) {
      var i := PlaceOf(plan, files, n);
    }
    forall m, n | 0 <= m < n < |files| ensures files[m].fileId != files[n].fileId {
      var i := PlaceOf(plan, files, m);
      var j := PlaceOf(plan, files, n);
    }
  }

  /** The planner draws a random id exactly when some row's own is malformed or taken. */
  lemma DrawsExactlyForBadIds(files: seq<LegacyFile>, versions: seq<LegacyVersion>, probe: Probe, random: seq<string>)
    requires Fresh(random, files)
    ensures Drawn(PlanOf(files, versions, probe, random), random) <==> !GoodIds(files)
  {
    var plan := PlanOf(files, versions, probe, random);
    if GoodIds(files) {
      GoodIdsAreKept(files, versions, probe, random);
      LiveAndDeleted(files);
      assert forall i :: 0 <= i < |plan.heads| ==> Live(files)[i] in files;
      assert forall i :: 0 <= i < |plan.tombs| ==> Deleted(files)[i] in files;
    } else if !Drawn(plan, random) {
      KeptUnlessDrawn(files, versions, probe, random);
      IdsAreDistinct(files, versions, probe, random);
      KeptAndDistinctIsGood(plan, files);
    }
  }

  /** Cut there, and started again with other random ids, the migration ends as one run would. */
  ghost predicate Resumes(d0: Db, files: seq<LegacyFile>, versions: seq<LegacyVersion>, probe: Probe,
          random: seq<string>, cut: Cut, other: seq<string>)
  {
    Attempted(Attempted(d0, files, versions, probe, random, Some(cut)), files, versions, probe, other, None) ==
    Attempted(d0, files, versions, probe, other, None)
  }

  lemma GoodIdsResume(d0: Db, files: seq<LegacyFile>, versions: seq<LegacyVersion>, probe: Probe, random: seq<string>,
          cut: Cut, other: seq<string>)
    requires Resumable(files) && Unmigrated(d0)
    ensures Resumes(d0, files, versions, probe, random, cut, other)
  {
    var a, b := Attempt(random, Some(cut)), Attempt(other, None);
    StopAnywhereRunAgain(d0, files, versions, probe, [a, b], other);
    assert [a, b][..1] == [a] && [a][..0] == [];
    assert AfterAttempts(d0, files, versions, probe, [a]) == Attempted(d0, files, versions, probe, random, Some(cut));
  }

  lemma DrawnHeadDoesNotResume(d0: Db, files: seq<LegacyFile>, versions: seq<LegacyVersion>, probe: Probe, i: nat,
          random: seq<string>, other: seq<string>) returns (cut: Cut)
    requires OwnPaths(files) && Unmigrated(d0) && Fresh(random, files) && Fresh(other, files) &&
             forall id :: id in random ==> id !in other
    requires var plan := PlanOf(files, versions, probe, random); i < |plan.heads| && plan.heads[i].fileId in random
    ensures !Resumes(d0, files, versions, probe, random, cut, other)
  {
    var plan := PlanOf(files, versions, probe, random);
    cut := Cut(|plan.heads| + |plan.tombs| + i + 1, false);
    ReplacedIdsDoNotResume(d0, files, versions, probe, i, random, other, None);
    SingleRunEnds(d0, files, versions, probe, other);
  }

  lemma DrawnTombDoesNotResume(d0: Db, files: seq<LegacyFile>, versions: seq<LegacyVersion>, probe: Probe, i: nat,
          random: seq<string>, other: seq<string>) returns (cut: Cut)
    requires OwnPaths(files) && Unmigrated(d0) && Fresh(random, files) && Fresh(other, files) &&
             forall id :: id in random ==> id !in other
    requires var plan := PlanOf(files, versions, probe, random); i < |plan.tombs| && plan.tombs[i].fileId in random
    ensures !Resumes(d0, files, versions, probe, random, cut, other)
  {
    var plan := PlanOf(files, versions, probe, random);
    cut := Cut(2 * |plan.heads| + |plan.tombs| + i + 1, false);
    ReplacedTombstoneStays(d0, files, versions, probe, i, random, other, None);
  }

  lemma SingleRunEnds(d0: Db, files: seq<LegacyFile>, versions: seq<LegacyVersion>, probe: Probe, random: seq<string>)
    requires OwnPaths(files) && Unmigrated(d0) && Fresh(random, files)
    ensures !Needs(Attempted(d0, files, versions, probe, random, None))
  {
    PlanIsOrderly(files, versions, probe, random);
    UncutFinishes(d0, d0, PlanOf(files, versions, probe, random));
  }

  lemma DrawnDoesNotResume(d0: Db, files: seq<LegacyFile>, versions: seq<LegacyVersion>, probe: Probe,
          random: seq<string>, other: seq<string>) returns (cut: Cut)
    requires OwnPaths(files) && Unmigrated(d0) && Fresh(random, files) && Fresh(other, files) &&
             forall id :: id in random ==> id !in other
    requires Drawn(PlanOf(files, versions, probe, random), random)
    ensures !Resumes(d0, files, versions, probe, random, cut, other)
  {
    var plan := PlanOf(files, versions, probe, random);
    if i :| 0 <= i < |plan.heads| && plan.heads[i].fileId in random {
      cut := DrawnHeadDoesNotResume(d0, files, versions, probe, i, random, other);
    } else {
      var i :| 0 <= i < |plan.tombs| && plan.tombs[i].fileId in random;
      cut := DrawnTombDoesNotResume(d0, files, versions, probe, i, random, other);
    }
  }

  /** The migration may be stopped anywhere and started again, with other random ids each time,
      exactly when the rows' own ids are well formed and distinct. */
  lemma ResumesExactlyWithGoodIds(d0: Db, files: seq<LegacyFile>, versions: seq<LegacyVersion>, probe: Probe,
          random: seq<string>, other: seq<string>)
    requires OwnPaths(files) && Unmigrated(d0) && Fresh(random, files) && Fresh(other, files) &&
             forall id :: id in random ==> id !in other
    ensures GoodIds(files) <==> forall cut :: Resumes(d0, files, versions, probe, random, cut, other)
  {
    if GoodIds(files) {
      forall cut ensures Resumes(d0, files, versions, probe, random, cut, other) {
        GoodIdsResume(d0, files, versions, probe, random, cut, other);
      }
    } else {
      DrawsExactlyForBadIds(files, versions, probe, random);
      var cut := DrawnDoesNotResume(d0, files, versions, probe, random, other);
    }
  }
}
