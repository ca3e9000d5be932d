/**
 Carrying out the move to schema 6: the journal is filled, then one transaction per object, one
 per tombstone, and a last one that closes the old tables.  It may stop anywhere and is started
 again from the beginning.
 */
module SchemaV6 {
  import opened Bytes
  import opened Options
  import opened Tables
  import opened PlanV6

  const SCHEMA_VERSION := 6

  datatype Schema = Schema(head: int, minRetained: int, minEnvelope: int, formatEpoch: int, meta: MetaState,
    version: int)

  type EntryKey = (string, JournalKind)

  datatype Db = Db(
    heads: map<string, Head>, tombs: map<string, Tombstone>, ledger: map<string, LedgerRow>, versions: map<VersionKey,
      Version>,
    journal: map<EntryKey, Stage>, schema: Schema, legacy: bool)

  /** The old tables are there and the schema is not yet the new one. */
  predicate Needs(d: Db) {
    d.legacy && d.schema.version < SCHEMA_VERSION
  }

  /** One transaction. */
  datatype Tx =
    | Enqueue(key: EntryKey)
    | MoveObject(h: Head, all: seq<Version>)
    | MoveTombstone(t: Tombstone, among: seq<Version>)
    | Finish(floor: int)

  function Entry(tx: Tx): EntryKey {
    match tx
    case Enqueue(key) => key
    case MoveObject(h, _) => (h.fileId, ObjectEntry)
    case MoveTombstone(t, _) => (t.fileId, TombstoneEntry)
    case Finish(_) => ("", ObjectEntry)
  }

  function PutRow(ledger: map<string, LedgerRow>, id: string, live: bool, createdAt: int, deletedAt: int): map<string,
          LedgerRow> {
    ledger[id := if id in ledger then ledger[id].(live := live, deletedAt := deletedAt)
      else LedgerRow(live, createdAt, deletedAt)]
  }

  /** The planned versions of one object go in; one already there is left alone. */
  function InsertHistory(versions: map<VersionKey, Version>, all: seq<Version>, id: string): map<VersionKey, Version> {
    if all == [] then versions
    else
      var m, v := InsertHistory(versions, all[..|all| - 1], id), all[|all| - 1];
      if v.fileId != id || (id, v.revision) in m then m else m[(id, v.revision) := v]
  }

  function SetStage(journal: map<EntryKey, Stage>, key: EntryKey, stage: Stage): map<EntryKey, Stage> {
    if key in journal then journal[key := stage] else journal
  }

  function Closed(s: Schema, floor: int): Schema {
    var epoch := if s.meta == MetaEncrypted then 2 else 1;
    s.(minRetained := if s.minRetained < s.head then s.head
      else s.minRetained, minEnvelope := if s.minEnvelope < floor then floor else s.minEnvelope,
       formatEpoch := if s.formatEpoch < epoch then epoch else s.formatEpoch, version := SCHEMA_VERSION)
  }

  /** What a transaction commits; none when a unique index refuses the head. */
  function Commit(d: Db, tx: Tx): Option<Db> {
    match tx
    case Enqueue(key) => Some(d.(journal := if key in d.journal then d.journal else d.journal[key := Pending]))
    case MoveObject(h, all) =>
      if !UniqueAllows(d.heads, h) then None
      else Some(d.(ledger := PutRow(d.ledger, h.fileId, true, h.createdAt, 0), heads := d.heads[h.fileId := h],
                   versions := InsertHistory(d.versions, all, h.fileId),
                     journal := SetStage(d.journal, (h.fileId, ObjectEntry), Done)))
    case MoveTombstone(t, among) =>
      Some(d.(ledger := PutRow(d.ledger, t.fileId, false, t.deletedAt, t.deletedAt), tombs := d.tombs[t.fileId := t],
              versions := InsertHistory(d.versions, among, t.fileId),
                journal := SetStage(d.journal, (t.fileId, TombstoneEntry), Done)))
    case Finish(floor) => Some(d.(schema := Closed(d.schema, floor), legacy := false))
  }

  function MarkFailed(d: Db, tx: Tx): Db {
    if tx.MoveObject? || tx.MoveTombstone? then d.(journal := SetStage(d.journal, Entry(tx), Failed)) else d
  }

  function Count(plan: Plan): nat {
    2 * |plan.heads| + 2 * |plan.tombs| + 1
  }

  /** The transactions of a plan, in order. */
  function TxAt(plan: Plan, k: nat): Tx
    requires k < Count(plan)
  {
    var (h, t) := (|plan.heads|, |plan.tombs|);
    if k < h then Enqueue((plan.heads[k].fileId, ObjectEntry))
    else if k < h + t then Enqueue((plan.tombs[k - h].fileId, TombstoneEntry))
    else if k < 2 * h + t then MoveObject(plan.heads[k - h - t], plan.versions)
    else if k < 2 * h + 2 * t then MoveTombstone(plan.tombs[k - 2 * h - t], plan.versions)
    else Finish(plan.floor)
  }

  /** How an attempt is cut short: after so many transactions, with an error or without. */
  datatype Cut = Cut(after: nat, failing: bool)

  const NO_CUT := Cut(0, false)

  /** An attempt that has come to transaction `k`. */
  function From(d: Db, plan: Plan, k: nat, cut: Option<Cut>): Db
    requires k <= Count(plan)
    decreases Count(plan) - k
  {
    if k == Count(plan) then d
    else if cut.Some? && cut.value.after <= k then (if cut.value.failing then MarkFailed(d, TxAt(plan, k)) else d)
    else
      var next := Commit(d, TxAt(plan, k));
      if next.None? then MarkFailed(d, TxAt(plan, k)) else From(next.value, plan, k + 1, cut)
  }

  function Attempted(d: Db, files: seq<LegacyFile>, versions: seq<LegacyVersion>, probe: Probe, random: seq<string>,
          cut: Option<Cut>): Db
  {
    if Needs(d) then From(d, PlanOf(files, versions, probe, random), 0, cut) else d
  }

  // ---------- the migration ----------

  class Migrator {
    var heads: map<string, Head>
    var tombs: map<string, Tombstone>
    var ledger: map<string, LedgerRow>
    var versions: map<VersionKey, Version>
    var journal: map<EntryKey, Stage>
    var schema: Schema
    var legacy: bool

    function State(): Db
      reads this
    {
      Db(heads, tombs, ledger, versions, journal, schema, legacy)
    }

    constructor (d: Db)
      ensures State() == d
    {
      heads, tombs, ledger, versions, journal := d.heads, d.tombs, d.ledger, d.versions, d.journal;
      schema, legacy := d.schema, d.legacy;
    }

    method InsertVersions(all: seq<Version>, id: string)
      modifies this`versions
      ensures versions == InsertHistory(old(versions), all, id)
    {
      ghost var was := versions;
      for i := 0 to |all|
        invariant versions == InsertHistory(was, all[..i], id)
      {
        assert all[..i + 1][..i] == all[..i];
        if all[i].fileId != id { continue; }
        if (id, all[i].revision) !in versions { versions := versions[(id, all[i].revision) := all[i]]; }
      }
      assert all[..|all|] == all;
    }

    method MigrateOneObject(h: Head, all: seq<Version>) returns (ok: bool)
      modifies this`heads, this`ledger, this`versions, this`journal
      ensures var next := Commit(old(State()), MoveObject(h, all));
              ok == next.Some? && State() == if ok then next.value else old(State())
    {
      if !UniqueAllows(heads, h) { return false; }
      ledger := PutRow(ledger, h.fileId, true, h.createdAt, 0);
      heads := heads[h.fileId := h];
      InsertVersions(all, h.fileId);
      if (h.fileId, ObjectEntry) in journal { journal := journal[(h.fileId, ObjectEntry) := Stage.Done]; }
      return true;
    }

    method MigrateOneTombstone(t: Tombstone, all: seq<Version>)
      modifies this`tombs, this`ledger, this`versions, this`journal
      ensures Commit(old(State()), MoveTombstone(t, all)) == Some(State())
    {
      ledger := PutRow(ledger, t.fileId, false, t.deletedAt, t.deletedAt);
      tombs := tombs[t.fileId := t];
      InsertVersions(all, t.fileId);
      if (t.fileId, TombstoneEntry) in journal { journal := journal[(t.fileId, TombstoneEntry) := Stage.Done]; }
    }

    method EnqueueJournal(key: EntryKey)
      modifies this`journal
      ensures Commit(old(State()), Enqueue(key)) == Some(State())
    {
      if key !in journal { journal := journal[key := Pending]; }
    }

    method MarkJournalFailed(key: EntryKey)
      modifies this`journal
      ensures State() == old(State()).(journal := SetStage(old(journal), key, Stage.Failed))
    {
      if key in journal { journal := journal[key := Stage.Failed]; }
    }

    method CloseOldTables(floor: int)
      modifies this`schema, this`legacy
      ensures Commit(old(State()), Finish(floor)) == Some(State())
    {
      if schema.minRetained < schema.head { schema := schema.(minRetained := schema.head); }
      if schema.minEnvelope < floor { schema := schema.(minEnvelope := floor); }
      var epoch := if schema.meta == MetaEncrypted then 2 else 1;
      if schema.formatEpoch < epoch { schema := schema.(formatEpoch := epoch); }
      schema := schema.(version := SCHEMA_VERSION);
      legacy := false;
    }

    /** Whether the attempt is cut before transaction `k`; a failing one is marked. */
    method CutHere(plan: Plan, k: nat, cut: Option<Cut>) returns (stop: bool)
      requires k < Count(plan)
      modifies this`journal
      ensures stop == (cut.Some? && cut.value.after <= k)
      ensures State() == if stop then From(old(State()), plan, k, cut) else old(State())
    {
      if cut.None? || k < cut.value.after { return false; }
      if cut.value.failing {
        var tx := TxAt(plan, k);
        if tx.MoveObject? || tx.MoveTombstone? { MarkJournalFailed(Entry(tx)); }
      }
      return true;
    }

    // Each phase carries the attempt from where it is to its end, or leaves it where the next
    // phase takes over.

    method EnqueueObjects(plan: Plan, cut: Option<Cut>, ghost end: Db) returns (stopped: bool)
      requires Leads(State(), plan, 0, cut, end)
      modifies this`journal
      ensures if stopped then State() == end else Leads(State(), plan, |plan.heads|, cut, end)
    {
      for i := 0 to |plan.heads|
        invariant Leads(State(), plan, i, cut, end)
      {
        stopped := CutHere(plan, i, cut);
        if stopped { return; }
        EnqueueJournal((plan.heads[i].fileId, ObjectEntry));
      }
      return false;
    }

    method EnqueueTombstones(plan: Plan, cut: Option<Cut>, ghost end: Db) returns (stopped: bool)
      requires Leads(State(), plan, |plan.heads|, cut, end)
      modifies this`journal
      ensures if stopped then State() == end else Leads(State(), plan, |plan.heads| + |plan.tombs|, cut, end)
    {
      for i := 0 to |plan.tombs|
        invariant Leads(State(), plan, |plan.heads| + i, cut, end)
      {
        stopped := EnqueueNextTombstone(plan, i, cut, end);
        if stopped { return; }
      }
      return false;
    }

    method EnqueueNextTombstone(plan: Plan, i: nat, cut: Option<Cut>, ghost end: Db) returns (stopped: bool)
      requires i < |plan.tombs| && Leads(State(), plan, |plan.heads| + i, cut, end)
      modifies this`journal
      ensures if stopped then State() == end else Leads(State(), plan, |plan.heads| + i + 1, cut, end)
    {
      stopped := CutHere(plan, |plan.heads| + i, cut);
      if stopped { return; }
      EnqueueJournal((plan.tombs[i].fileId, TombstoneEntry));
    }

    method MoveObjects(plan: Plan, cut: Option<Cut>, ghost end: Db) returns (stopped: bool)
      requires Leads(State(), plan, |plan.heads| + |plan.tombs|, cut, end)
      modifies this`heads, this`ledger, this`versions, this`journal
      ensures if stopped then State() == end else Leads(State(), plan, 2 * |plan.heads| + |plan.tombs|, cut, end)
    {
      ghost var k: nat := |plan.heads| + |plan.tombs|;
      stopped := false;
      for i := 0 to |plan.heads|
        invariant k == |plan.heads| + |plan.tombs| + i && !stopped && Leads(State(), plan, k, cut, end)
      {
        stopped := MoveNextObject(plan, i, cut, end, k);
        if stopped { break; }
        k := k + 1;
      }
    }

    method MoveNextObject(plan: Plan, i: nat, cut: Option<Cut>, ghost end: Db, ghost k: nat) returns (stopped: bool)
      requires i < |plan.heads| && k == |plan.heads| + |plan.tombs| + i && Leads(State(), plan, k, cut, end)
      modifies this`heads, this`ledger, this`versions, this`journal
      ensures if stopped then State() == end else Leads(State(), plan, k + 1, cut, end)
    {
      stopped := CutHere(plan, |plan.heads| + |plan.tombs| + i, cut);
      if stopped { return; }
      ObjectStep(State(), plan, i, k, cut);
      var ok := MigrateOneObject(plan.heads[i], plan.versions);
      if !ok {
        MarkJournalFailed((plan.heads[i].fileId, ObjectEntry));
        return true;
      }
    }

    method MoveTombstones(plan: Plan, cut: Option<Cut>, ghost end: Db) returns (stopped: bool)
      requires Leads(State(), plan, 2 * |plan.heads| + |plan.tombs|, cut, end)
      modifies this`tombs, this`ledger, this`versions, this`journal
      ensures if stopped then State() == end else Leads(State(), plan, Count(plan) - 1, cut, end)
    {
      ghost var k: nat := 2 * |plan.heads| + |plan.tombs|;
      stopped := false;
      for i := 0 to |plan.tombs|
        invariant k == 2 * |plan.heads| + |plan.tombs| + i && !stopped && Leads(State(), plan, k, cut, end)
      {
        stopped := MoveNextTombstone(plan, i, cut, end, k);
        if stopped { break; }
        k := k + 1;
      }
    }

    method MoveNextTombstone(plan: Plan, i: nat, cut: Option<Cut>, ghost end: Db, ghost k: nat)
      returns (stopped: bool)
      requires i < |plan.tombs| && k == 2 * |plan.heads| + |plan.tombs| + i && Leads(State(), plan, k, cut, end)
      modifies this`tombs, this`ledger, this`versions, this`journal
      ensures if stopped then State() == end else Leads(State(), plan, k + 1, cut, end)
    {
      stopped := CutHere(plan, 2 * |plan.heads| + |plan.tombs| + i, cut);
      if stopped { return; }
      assert TxAt(plan, k) == MoveTombstone(plan.tombs[i], plan.versions);
      MigrateOneTombstone(plan.tombs[i], plan.versions);
    }

    method MigrateToV6(files: seq<LegacyFile>, legacyVersions: seq<LegacyVersion>, probe: Probe, random: seq<string>,
            cut: Option<Cut>)
      modifies this
      ensures State() == Attempted(old(State()), files, legacyVersions, probe, random, cut)
    {
      if !legacy || schema.version >= SCHEMA_VERSION { return; }
      var plan := MakePlan(files, legacyVersions, probe, random);
      ghost var end := Attempted(State(), files, legacyVersions, probe, random, cut);
      var stopped := EnqueueObjects(plan, cut, end);
      if stopped { return; }
      stopped := EnqueueTombstones(plan, cut, end);
      if stopped { return; }
      stopped := MoveObjects(plan, cut, end);
      if stopped { return; }
      stopped := MoveTombstones(plan, cut, end);
      if stopped { return; }
      LastTransaction(plan, cut, end);
    }

    method LastTransaction(plan: Plan, cut: Option<Cut>, ghost end: Db)
      requires Leads(State(), plan, Count(plan) - 1, cut, end)
      modifies this
      ensures State() == end
    {
      assert TxAt(plan, Count(plan) - 1) == Finish(plan.floor);
      var stopped := CutHere(plan, Count(plan) - 1, cut);
      if stopped { return; }
      CloseOldTables(plan.floor);
      assert From(State(), plan, Count(plan), cut) == State();
    }
  }

  /** An attempt that is at `k` comes to this end. */
  ghost predicate Leads(d: Db, plan: Plan, k: nat, cut: Option<Cut>, end: Db) {
    k <= Count(plan) && From(d, plan, k, cut) == end
  }

  lemma ObjectStep(d: Db, plan: Plan, i: nat, k: nat, cut: Option<Cut>)
    requires i < |plan.heads| && k == |plan.heads| + |plan.tombs| + i && (cut.Some? ==> cut.value.after > k)
    ensures var tx := MoveObject(plan.heads[i], plan.versions);
            From(d, plan, k, cut) == (if Commit(d, tx).None? then MarkFailed(d, tx)
              else From(Commit(d, tx).value, plan, k + 1, cut))
  {
    assert TxAt(plan, k) == MoveObject(plan.heads[i], plan.versions);
  }

  // ---------- what the migration is to end in ----------

  /** The planned heads and tombstones do not get in one another's way. */
  ghost predicate Orderly(plan: Plan) {
    DistinctIds(plan) && UniqueVersions(plan.versions) &&
    (forall i, j :: 0 <= i < j < |plan.heads| ==> plan.heads[i].pseudonym != plan.heads[j].pseudonym) &&
    (forall i, j :: 0 <= i < j < |plan.heads| && plan.heads[i].canonicalKey != "" ==>
      plan.heads[i].canonicalKey != plan.heads[j].canonicalKey)
  }

  ghost predicate IsHeadId(plan: Plan, id: string) {
    exists i :: 0 <= i < |plan.heads| && plan.heads[i].fileId == id
  }

  ghost predicate IsTombId(plan: Plan, id: string) {
    exists i :: 0 <= i < |plan.tombs| && plan.tombs[i].fileId == id
  }

  ghost predicate WantsHead(plan: Plan, h: Head) {
    exists i :: 0 <= i < |plan.heads| && plan.heads[i] == h
  }

  ghost predicate WantsTomb(plan: Plan, t: Tombstone) {
    exists i :: 0 <= i < |plan.tombs| && plan.tombs[i] == t
  }

  ghost predicate WantsRow(plan: Plan, id: string, row: LedgerRow) {
    (exists i :: 0 <= i < |plan.heads| && plan.heads[i].fileId == id &&
      row == LedgerRow(true, plan.heads[i].createdAt, 0)) ||
    exists i :: 0 <= i < |plan.tombs| && plan.tombs[i].fileId == id &&
      row == LedgerRow(false, plan.tombs[i].deletedAt, plan.tombs[i].deletedAt)
  }

  ghost predicate WantsVersion(plan: Plan, k: VersionKey, v: Version) {
    v in plan.versions && k == (v.fileId, v.revision) && (IsHeadId(plan, v.fileId) || IsTombId(plan, v.fileId))
  }

  function Entries(plan: Plan): set<EntryKey> {
    (set i | 0 <= i < |plan.heads| :: (plan.heads[i].fileId, ObjectEntry)) +
      (set i | 0 <= i < |plan.tombs| :: (plan.tombs[i].fileId, TombstoneEntry))
  }

  // Only what the plan wants is there.

  ghost predicate HeadsFit(plan: Plan, heads: map<string, Head>) {
    forall f :: f in heads ==> heads[f].fileId == f && WantsHead(plan, heads[f])
  }

  ghost predicate TombsFitIn(plan: Plan, tombs: map<string, Tombstone>) {
    forall f :: f in tombs ==> tombs[f].fileId == f && WantsTomb(plan, tombs[f])
  }

  ghost predicate LedgerFits(plan: Plan, ledger: map<string, LedgerRow>) {
    forall f :: f in ledger ==> WantsRow(plan, f, ledger[f])
  }

  ghost predicate VersionsFit(plan: Plan, versions: map<VersionKey, Version>) {
    forall k :: k in versions ==> WantsVersion(plan, k, versions[k])
  }

  ghost predicate JournalFits(was: map<EntryKey, Stage>, journal: map<EntryKey, Stage>, plan: Plan) {
    was.Keys <= journal.Keys <= was.Keys + Entries(plan) && forall k :: k in journal && k !in Entries(plan) ==>
      journal[k] == was[k]
  }

  // All of what it wants is there.

  ghost predicate HeadsAll(plan: Plan, heads: map<string, Head>) {
    forall i :: 0 <= i < |plan.heads| ==> plan.heads[i].fileId in heads
  }

  ghost predicate TombsAll(plan: Plan, tombs: map<string, Tombstone>) {
    forall i :: 0 <= i < |plan.tombs| ==> plan.tombs[i].fileId in tombs
  }

  ghost predicate LedgerAll(plan: Plan, ledger: map<string, LedgerRow>) {
    forall f :: IsHeadId(plan, f) || IsTombId(plan, f) ==> f in ledger
  }

  ghost predicate VersionsAll(plan: Plan, versions: map<VersionKey, Version>) {
    forall v :: v in plan.versions && (IsHeadId(plan, v.fileId) || IsTombId(plan, v.fileId)) ==>
      (v.fileId, v.revision) in versions
  }

  ghost predicate JournalAll(was: map<EntryKey, Stage>, journal: map<EntryKey, Stage>, plan: Plan) {
    forall k :: k in Entries(plan) ==> k in journal && journal[k] == Done
  }

  /** Some way into the migration. */
  ghost predicate UnderWay(d0: Db, d: Db, plan: Plan) {
    HeadsFit(plan, d.heads) && TombsFitIn(plan, d.tombs) && LedgerFits(plan, d.ledger) &&
      VersionsFit(plan, d.versions) &&
    JournalFits(d0.journal, d.journal, plan) && d.schema == d0.schema && d.legacy == d0.legacy
  }

  /** Everything moved, every entry done. */
  ghost predicate Moved(d0: Db, d: Db, plan: Plan) {
    HeadsFit(plan, d.heads) && TombsFitIn(plan, d.tombs) && LedgerFits(plan, d.ledger) &&
      VersionsFit(plan, d.versions) &&
    JournalFits(d0.journal, d.journal, plan) && HeadsAll(plan, d.heads) && TombsAll(plan, d.tombs) &&
      LedgerAll(plan, d.ledger) &&
    VersionsAll(plan, d.versions) && JournalAll(d0.journal, d.journal, plan)
  }

  /** Everything moved, and the old tables closed. */
  ghost predicate Finished(d0: Db, d: Db, plan: Plan) {
    Moved(d0, d, plan) && d.schema == Closed(d0.schema, plan.floor) && !d.legacy
  }

  /** There is only one such end. */
  lemma OneEnd(d0: Db, d1: Db, d2: Db, plan: Plan)
    requires Orderly(plan) && Finished(d0, d1, plan) && Finished(d0, d2, plan)
    ensures d1 == d2
  {
    SameHeads(plan, d1.heads, d2.heads);
    SameTombs(plan, d1.tombs, d2.tombs);
    SameLedger(plan, d1.ledger, d2.ledger);
    SameVersions(plan, d1.versions, d2.versions);
  }

  lemma SameHeads(plan: Plan, m1: map<string, Head>, m2: map<string, Head>)
    requires DistinctIds(plan) && HeadsFit(plan, m1) && HeadsFit(plan, m2) && HeadsAll(plan, m1) && HeadsAll(plan, m2)
    ensures m1 == m2
  {
  }

  lemma SameTombs(plan: Plan, m1: map<string, Tombstone>, m2: map<string, Tombstone>)
    requires DistinctIds(plan) && TombsFitIn(plan, m1) && TombsFitIn(plan, m2) && TombsAll(plan, m1) &&
             TombsAll(plan, m2)
    ensures m1 == m2
  {
  }

  lemma OneRow(plan: Plan, f: string, row1: LedgerRow, row2: LedgerRow)
    requires DistinctIds(plan) && WantsRow(plan, f, row1) && WantsRow(plan, f, row2)
    ensures row1 == row2
  {
  }

  lemma OneVersion(plan: Plan, k: VersionKey, v1: Version, v2: Version)
    requires UniqueVersions(plan.versions) && WantsVersion(plan, k, v1) && WantsVersion(plan, k, v2)
    ensures v1 == v2
  {
    var i :| 0 <= i < |plan.versions| && plan.versions[i] == v1;
    var j :| 0 <= j < |plan.versions| && plan.versions[j] == v2;
    if i < j { assert false; }
    if j < i { assert false; }
  }

  lemma SameLedger(plan: Plan, l1: map<string, LedgerRow>, l2: map<string, LedgerRow>)
    requires DistinctIds(plan) && LedgerFits(plan, l1) && LedgerFits(plan, l2) && LedgerAll(plan, l1) &&
             LedgerAll(plan, l2)
    ensures l1 == l2
  {
    forall f | f in l1 ensures f in l2 && l1[f] == l2[f] {
      assert WantsRow(plan, f, l1[f]);
      assert IsHeadId(plan, f) || IsTombId(plan, f);
      OneRow(plan, f, l1[f], l2[f]);
    }
    forall f | f in l2 ensures f in l1 {
      assert WantsRow(plan, f, l2[f]);
      assert IsHeadId(plan, f) || IsTombId(plan, f);
    }
  }

  lemma SameVersions(plan: Plan, m1: map<VersionKey, Version>, m2: map<VersionKey, Version>)
    requires UniqueVersions(plan.versions)
    requires VersionsFit(plan, m1) && VersionsFit(plan, m2) && VersionsAll(plan, m1) && VersionsAll(plan, m2)
    ensures m1 == m2
  {
    forall k | k in m1 ensures k in m2 && m1[k] == m2[k] {
      assert WantsVersion(plan, k, m1[k]);
      OneVersion(plan, k, m1[k], m2[k]);
    }
    forall k | k in m2 ensures k in m1 {
      assert WantsVersion(plan, k, m2[k]);
    }
  }

  // ---------- every transaction keeps to the plan ----------

  lemma {:induction false} InsertedVersions(versions: map<VersionKey, Version>, all: seq<Version>, id: string)
    ensures var m := InsertHistory(versions, all, id);
            (forall k :: k in versions ==> k in m && m[k] == versions[k]) &&
            (forall k :: k in m && k !in versions ==> m[k] in all && m[k].fileId == id && k == (id, m[k].revision)) &&
            forall v :: v in all && v.fileId == id ==> (id, v.revision) in m
  {
    if all != [] {
      InsertedVersions(versions, all[..|all| - 1], id);
      assert all == all[..|all| - 1] + [all[|all| - 1]];
    }
  }

  lemma NotRefused(plan: Plan, heads: map<string, Head>, i: nat)
    requires Orderly(plan) && HeadsFit(plan, heads) && i < |plan.heads|
    ensures UniqueAllows(heads, plan.heads[i])
  {
  }

  lemma RowGoesIn(plan: Plan, ledger: map<string, LedgerRow>, id: string, live: bool, createdAt: int, deletedAt: int)
    requires DistinctIds(plan) && LedgerFits(plan, ledger) && WantsRow(plan, id, LedgerRow(live, createdAt, deletedAt))
    ensures LedgerFits(plan, PutRow(ledger, id, live, createdAt, deletedAt))
    ensures PutRow(ledger, id, live, createdAt, deletedAt) == ledger[id := LedgerRow(live, createdAt, deletedAt)]
  {
    if id in ledger { OneRow(plan, id, ledger[id], LedgerRow(live, createdAt, deletedAt)); }
  }

  lemma HistoryGoesIn(plan: Plan, versions: map<VersionKey, Version>, id: string)
    requires VersionsFit(plan, versions) && (IsHeadId(plan, id) || IsTombId(plan, id))
    ensures VersionsFit(plan, InsertHistory(versions, plan.versions, id))
  {
    var m := InsertHistory(versions, plan.versions, id);
    InsertedVersions(versions, plan.versions, id);
    forall k | k in m ensures WantsVersion(plan, k, m[k]) {
      if k in versions { assert WantsVersion(plan, k, versions[k]); }
    }
  }

  lemma StageIsSet(was: map<EntryKey, Stage>, journal: map<EntryKey, Stage>, plan: Plan, key: EntryKey, stage: Stage)
    requires JournalFits(was, journal, plan) && key in Entries(plan)
    ensures JournalFits(was, SetStage(journal, key, stage), plan)
  {
  }

  lemma TombGoesIn(plan: Plan, tombs: map<string, Tombstone>, i: nat)
    requires TombsFitIn(plan, tombs) && i < |plan.tombs|
    ensures TombsFitIn(plan, tombs[plan.tombs[i].fileId := plan.tombs[i]])
  {
    assert WantsTomb(plan, plan.tombs[i]);
  }

  lemma HeadGoesIn(plan: Plan, heads: map<string, Head>, i: nat)
    requires HeadsFit(plan, heads) && i < |plan.heads|
    ensures HeadsFit(plan, heads[plan.heads[i].fileId := plan.heads[i]])
  {
    assert WantsHead(plan, plan.heads[i]);
  }

  ghost predicate KeepsToPlan(d0: Db, d: Db, plan: Plan, tx: Tx) {
    Commit(d, tx).Some? && UnderWay(d0, Commit(d, tx).value, plan)
  }

  lemma ObjectMoves(d0: Db, d: Db, plan: Plan, i: nat)
    requires Orderly(plan) && UnderWay(d0, d, plan) && i < |plan.heads|
    ensures KeepsToPlan(d0, d, plan, MoveObject(plan.heads[i], plan.versions))
  {
    var h := plan.heads[i];
    NotRefused(plan, d.heads, i);
    assert IsHeadId(plan, h.fileId) && (h.fileId, ObjectEntry) in Entries(plan);
    HeadGoesIn(plan, d.heads, i);
    RowGoesIn(plan, d.ledger, h.fileId, true, h.createdAt, 0);
    HistoryGoesIn(plan, d.versions, h.fileId);
    StageIsSet(d0.journal, d.journal, plan, (h.fileId, ObjectEntry), Done);
  }

  lemma TombstoneMoves(d0: Db, d: Db, plan: Plan, i: nat)
    requires Orderly(plan) && UnderWay(d0, d, plan) && i < |plan.tombs|
    ensures KeepsToPlan(d0, d, plan, MoveTombstone(plan.tombs[i], plan.versions))
  {
    var t := plan.tombs[i];
    assert IsTombId(plan, t.fileId) && (t.fileId, TombstoneEntry) in Entries(plan);
    TombGoesIn(plan, d.tombs, i);
    RowGoesIn(plan, d.ledger, t.fileId, false, t.deletedAt, t.deletedAt);
    HistoryGoesIn(plan, d.versions, t.fileId);
    StageIsSet(d0.journal, d.journal, plan, (t.fileId, TombstoneEntry), Done);
  }

  lemma EntryIsAdded(d0: Db, d: Db, plan: Plan, key: EntryKey)
    requires UnderWay(d0, d, plan) && key in Entries(plan)
    ensures KeepsToPlan(d0, d, plan, Enqueue(key))
  {
    assert JournalFits(d0.journal, Commit(d, Enqueue(key)).value.journal, plan);
  }

  lemma TxIs(plan: Plan, k: nat)
    requires k < Count(plan)
    ensures var (h, t) := (|plan.heads|, |plan.tombs|);
            TxAt(plan, k) ==
            if k < h then Enqueue((plan.heads[k].fileId, ObjectEntry))
            else if k < h + t then Enqueue((plan.tombs[k - h].fileId, TombstoneEntry))
            else if k < 2 * h + t then MoveObject(plan.heads[k - h - t], plan.versions)
            else if k < 2 * h + 2 * t then MoveTombstone(plan.tombs[k - 2 * h - t], plan.versions)
            else Finish(plan.floor)
    ensures k < Count(plan) - 1 ==> Entry(TxAt(plan, k)) in Entries(plan) && !TxAt(plan, k).Finish?
  {
    var (h, t) := (|plan.heads|, |plan.tombs|);
    if k < h { assert Entry(TxAt(plan, k)) == (plan.heads[k].fileId, ObjectEntry); }
    else if k < h + t { assert Entry(TxAt(plan, k)) == (plan.tombs[k - h].fileId, TombstoneEntry); }
    else if k < 2 * h + t { assert Entry(TxAt(plan, k)) == (plan.heads[k - h - t].fileId, ObjectEntry); }
    else if k < 2 * h + 2 * t { assert Entry(TxAt(plan, k)) == (plan.tombs[k - 2 * h - t].fileId, TombstoneEntry); }
  }

  /** What holds of entries, objects and tombstones holds of every transaction but the last. */
  lemma ByKind(plan: Plan, k: nat, p: Tx -> bool)
    requires k < Count(plan) - 1
    requires forall key :: key in Entries(plan) ==> p(Enqueue(key))
    requires forall i :: 0 <= i < |plan.heads| ==> p(MoveObject(plan.heads[i], plan.versions))
    requires forall i :: 0 <= i < |plan.tombs| ==> p(MoveTombstone(plan.tombs[i], plan.versions))
    ensures p(TxAt(plan, k))
  {
    TxIs(plan, k);
  }

  /** No planned transaction is refused, and each keeps to the plan. */
  lemma NextKeepsUnderWay(d0: Db, d: Db, plan: Plan, k: nat)
    requires Orderly(plan) && UnderWay(d0, d, plan) && k < Count(plan) - 1
    ensures KeepsToPlan(d0, d, plan, TxAt(plan, k))
  {
    forall key | key in Entries(plan) ensures KeepsToPlan(d0, d, plan, Enqueue(key)) { EntryIsAdded(d0, d, plan, key); }
    forall i | 0 <= i < |plan.heads| ensures KeepsToPlan(d0, d, plan, MoveObject(plan.heads[i], plan.versions)) {
      ObjectMoves(d0, d, plan, i);
    }
    forall i | 0 <= i < |plan.tombs| ensures KeepsToPlan(d0, d, plan, MoveTombstone(plan.tombs[i], plan.versions)) {
      TombstoneMoves(d0, d, plan, i);
    }
    ByKind(plan, k, tx => KeepsToPlan(d0, d, plan, tx));
  }

  // ---------- what is in place stays in place ----------

  ghost predicate HistoryIn(versions: map<VersionKey, Version>, all: seq<Version>, id: string) {
    forall v :: v in all && v.fileId == id ==> (id, v.revision) in versions
  }

  ghost predicate DoneIn(journal: map<EntryKey, Stage>, key: EntryKey) {
    key in journal && journal[key] == Done
  }

  ghost predicate InPlace(d: Db, tx: Tx) {
    match tx
    case Enqueue(key) => key in d.journal
    case MoveObject(h, all) => h.fileId in d.heads && h.fileId in d.ledger && HistoryIn(d.versions, all, h.fileId) &&
        DoneIn(d.journal, (h.fileId, ObjectEntry))
    case MoveTombstone(t, among) => t.fileId in d.tombs && t.fileId in d.ledger &&
        HistoryIn(d.versions, among, t.fileId) && DoneIn(d.journal, (t.fileId, TombstoneEntry))
    case Finish(_) => false
  }

  /** The first `k` transactions are in place. */
  ghost predicate Covered(d: Db, plan: Plan, k: nat)
    requires k <= Count(plan)
  {
    forall j :: 0 <= j < k ==> InPlace(d, TxAt(plan, j))
  }

  lemma StaysInPlace(d: Db, tx: Tx, kept: Tx)
    requires Commit(d, tx).Some? && !tx.Finish? && InPlace(d, kept)
    ensures InPlace(Commit(d, tx).value, kept)
  {
    if tx.MoveObject? { InsertedVersions(d.versions, tx.all, tx.h.fileId); }
    if tx.MoveTombstone? { InsertedVersions(d.versions, tx.among, tx.t.fileId); }
  }

  lemma ComesInPlace(d: Db, tx: Tx)
    requires Commit(d, tx).Some? && !tx.Finish? && (tx.Enqueue? || Entry(tx) in d.journal)
    ensures InPlace(Commit(d, tx).value, tx)
  {
    if tx.MoveObject? { InsertedVersions(d.versions, tx.all, tx.h.fileId); }
    if tx.MoveTombstone? { InsertedVersions(d.versions, tx.among, tx.t.fileId); }
  }

  /** By the time an object moves, its entry is registered. */
  lemma Registered(d: Db, plan: Plan, k: nat)
    requires |plan.heads| + |plan.tombs| <= k < Count(plan) - 1 && Covered(d, plan, k)
    ensures Entry(TxAt(plan, k)) in d.journal
  {
    var (h, t) := (|plan.heads|, |plan.tombs|);
    var j := if k < 2 * h + t then k - h - t else k - h - t;
    TxIs(plan, k);
    TxIs(plan, j);
    assert InPlace(d, TxAt(plan, j));
  }

  lemma CoversOneMore(d: Db, plan: Plan, k: nat)
    requires k < Count(plan) - 1 && Covered(d, plan, k) && Commit(d, TxAt(plan, k)).Some?
    ensures Covered(Commit(d, TxAt(plan, k)).value, plan, k + 1)
  {
    TxIs(plan, k);
    if k >= |plan.heads| + |plan.tombs| { Registered(d, plan, k); }
    ComesInPlace(d, TxAt(plan, k));
    forall j | 0 <= j < k ensures InPlace(Commit(d, TxAt(plan, k)).value, TxAt(plan, j)) {
      StaysInPlace(d, TxAt(plan, k), TxAt(plan, j));
    }
  }

  lemma ObjectsInPlace(d: Db, plan: Plan)
    requires Covered(d, plan, Count(plan) - 1)
    ensures forall i :: 0 <= i < |plan.heads| ==> InPlace(d, MoveObject(plan.heads[i], plan.versions))
    ensures forall i :: 0 <= i < |plan.tombs| ==> InPlace(d, MoveTombstone(plan.tombs[i], plan.versions))
  {
    var (h, t) := (|plan.heads|, |plan.tombs|);
    forall i | 0 <= i < h ensures InPlace(d, MoveObject(plan.heads[i], plan.versions)) {
      TxIs(plan, h + t + i);
      assert InPlace(d, TxAt(plan, h + t + i));
    }
    forall i | 0 <= i < t ensures InPlace(d, MoveTombstone(plan.tombs[i], plan.versions)) {
      TxIs(plan, 2 * h + t + i);
      assert InPlace(d, TxAt(plan, 2 * h + t + i));
    }
  }

  lemma AllMoved(d0: Db, d: Db, plan: Plan)
    requires UnderWay(d0, d, plan) && Covered(d, plan, Count(plan) - 1)
    ensures Moved(d0, d, plan)
  {
    ObjectsInPlace(d, plan);
    AllInPlace(d0, d, plan);
  }

  lemma AllInPlace(d0: Db, d: Db, plan: Plan)
    requires forall i :: 0 <= i < |plan.heads| ==> InPlace(d, MoveObject(plan.heads[i], plan.versions))
    requires forall i :: 0 <= i < |plan.tombs| ==> InPlace(d, MoveTombstone(plan.tombs[i], plan.versions))
    ensures HeadsAll(plan, d.heads) && TombsAll(plan, d.tombs) && LedgerAll(plan, d.ledger) &&
            VersionsAll(plan, d.versions) && JournalAll(d0.journal, d.journal, plan)
  {
    forall k | k in Entries(plan) ensures k in d.journal && d.journal[k] == Done {
      if i :| 0 <= i < |plan.heads| && k == (plan.heads[i].fileId, ObjectEntry) {
        assert InPlace(d, MoveObject(plan.heads[i], plan.versions));
      } else {
        var i :| 0 <= i < |plan.tombs| && k == (plan.tombs[i].fileId, TombstoneEntry);
        assert InPlace(d, MoveTombstone(plan.tombs[i], plan.versions));
      }
    }
  }

  // ---------- attempts ----------

  /** What holds at the start of an attempt and is kept by each transaction holds before the
      last one. */
  lemma {:induction false} RunThrough(plan: Plan, d: Db, k: nat, p: (Db, nat) -> bool) returns (d': Db)
    requires k < Count(plan) && p(d, k)
    requires forall s, j :: 0 <= j < Count(plan) - 1 && p(s, j) ==>
             Commit(s, TxAt(plan, j)).Some? && p(Commit(s, TxAt(plan, j)).value, j + 1)
    ensures p(d', Count(plan) - 1) && Some(From(d, plan, k, None)) == Commit(d', TxAt(plan, Count(plan) - 1))
    decreases Count(plan) - k
  {
    if k == Count(plan) - 1 {
      d' := d;
    } else {
      d' := RunThrough(plan, Commit(d, TxAt(plan, k)).value, k + 1, p);
    }
  }

  /** The same of an attempt that is cut short, where it stops or where it fails. */
  lemma {:induction false} RunCutShort(plan: Plan, d: Db, k: nat, cut: Cut, p: (Db, nat) -> bool, q: Db -> bool)
    requires k <= Count(plan) - 1 && cut.after < Count(plan) && p(d, k)
    requires forall s, j :: 0 <= j < Count(plan) - 1 && p(s, j) ==>
             Commit(s, TxAt(plan, j)).Some? && p(Commit(s, TxAt(plan, j)).value, j + 1)
    requires forall s, j :: 0 <= j < Count(plan) && p(s, j) ==> q(s) && q(MarkFailed(s, TxAt(plan, j)))
    ensures q(From(d, plan, k, Some(cut)))
    decreases Count(plan) - k
  {
    if cut.after > k { RunCutShort(plan, Commit(d, TxAt(plan, k)).value, k + 1, cut, p, q); }
  }

  lemma {:induction false} LateCut(plan: Plan, d: Db, k: nat, cut: Cut)
    requires k <= Count(plan) <= cut.after
    ensures From(d, plan, k, Some(cut)) == From(d, plan, k, None)
    decreases Count(plan) - k
  {
    if k < Count(plan) && Commit(d, TxAt(plan, k)).Some? { LateCut(plan, Commit(d, TxAt(plan, k)).value, k + 1, cut); }
  }

  lemma FailedKeepsUnderWay(d0: Db, d: Db, plan: Plan, k: nat)
    requires UnderWay(d0, d, plan) && k < Count(plan)
    ensures UnderWay(d0, MarkFailed(d, TxAt(plan, k)), plan)
  {
    TxIs(plan, k);
    if k < Count(plan) - 1 { StageIsSet(d0.journal, d.journal, plan, Entry(TxAt(plan, k)), Failed); }
  }

  lemma EveryStepKeeps(d0: Db, plan: Plan, p: (Db, nat) -> bool)
    requires Orderly(plan)
    requires forall s, j: nat :: p(s, j) <==> j <= Count(plan) && UnderWay(d0, s, plan) && Covered(s, plan, j)
    ensures forall s, j :: 0 <= j < Count(plan) - 1 && p(s, j) ==>
            Commit(s, TxAt(plan, j)).Some? && p(Commit(s, TxAt(plan, j)).value, j + 1)
  {
    forall s, j | 0 <= j < Count(plan) - 1 && p(s, j)
      ensures Commit(s, TxAt(plan, j)).Some? && p(Commit(s, TxAt(plan, j)).value, j + 1)
    {
      StepOfBoth(d0, s, plan, j);
    }
  }

  /** Undisturbed, an attempt comes to its last transaction with all others in place. */
  lemma UncutReaches(d0: Db, d: Db, plan: Plan) returns (last: Db)
    requires Orderly(plan) && UnderWay(d0, d, plan)
    ensures UnderWay(d0, last, plan) && Covered(last, plan, Count(plan) - 1)
    ensures Some(From(d, plan, 0, None)) == Commit(last, TxAt(plan, Count(plan) - 1))
  {
    var p := (s: Db, j: nat) => j <= Count(plan) && UnderWay(d0, s, plan) && Covered(s, plan, j);
    EveryStepKeeps(d0, plan, p);
    last := RunThrough(plan, d, 0, p);
  }

  /** Undisturbed, an attempt finishes the migration, wherever earlier ones left it. */
  lemma UncutFinishes(d0: Db, d: Db, plan: Plan)
    requires Orderly(plan) && UnderWay(d0, d, plan)
    ensures Finished(d0, From(d, plan, 0, None), plan)
  {
    var last := UncutReaches(d0, d, plan);
    AllMoved(d0, last, plan);
    assert TxAt(plan, Count(plan) - 1) == Finish(plan.floor) by { TxIs(plan, Count(plan) - 1); }
  }

  lemma StepOfBoth(d0: Db, s: Db, plan: Plan, j: nat)
    requires Orderly(plan) && UnderWay(d0, s, plan) && j < Count(plan) - 1 && Covered(s, plan, j)
    ensures Commit(s, TxAt(plan, j)).Some? && UnderWay(d0, Commit(s, TxAt(plan, j)).value, plan) &&
            Covered(Commit(s, TxAt(plan, j)).value, plan, j + 1)
  {
    NextKeepsUnderWay(d0, s, plan, j);
    CoversOneMore(s, plan, j);
  }

  /** Cut short, it leaves it under way. */
  lemma CutKeepsUnderWay(d0: Db, d: Db, plan: Plan, cut: Cut)
    requires Orderly(plan) && UnderWay(d0, d, plan) && cut.after < Count(plan)
    ensures UnderWay(d0, From(d, plan, 0, Some(cut)), plan)
  {
    var p := (s: Db, j: nat) => UnderWay(d0, s, plan);
    var q := (s: Db) => UnderWay(d0, s, plan);
    forall s, j | 0 <= j < Count(plan) - 1 && p(s, j)
      ensures Commit(s, TxAt(plan, j)).Some? && p(Commit(s, TxAt(plan, j)).value, j + 1)
    {
      NextKeepsUnderWay(d0, s, plan, j);
    }
    forall s, j | 0 <= j < Count(plan) && p(s, j) ensures q(s) && q(MarkFailed(s, TxAt(plan, j))) {
      FailedKeepsUnderWay(d0, s, plan, j);
    }
    RunCutShort(plan, d, 0, cut, p, q);
  }

  // ---------- the theorem ----------

  /** What a resumable migration asks of the old rows: every row has an id of its own, and live
      rows have paths and canonical keys of their own. */
  ghost predicate Resumable(files: seq<LegacyFile>) {
    GoodIds(files) && OwnPaths(files)
  }

  ghost predicate OwnPaths(files: seq<LegacyFile>) {
    (forall i, j :: 0 <= i < j < |files| ==> files[i].path != files[j].path) &&
    forall i, j :: 0 <= i < j < |files| && !files[i].deleted && !files[j].deleted && files[i].canonicalKey != "" ==>
      files[i].canonicalKey != files[j].canonicalKey
  }

  /** Where the live rows, or the deleted ones, are among all rows. */
  function RowsAt(files: seq<LegacyFile>, deleted: bool): seq<nat> {
    if files == [] then []
    else RowsAt(files[..|files| - 1], deleted) + if files[|files| - 1].deleted == deleted then [|files| - 1] else []
  }

  lemma {:induction false} InOrder(files: seq<LegacyFile>, deleted: bool)
    ensures forall i :: 0 <= i < |RowsAt(files, deleted)| ==> RowsAt(files, deleted)[i] < |files|
    ensures forall i, j :: 0 <= i < j < |RowsAt(files, deleted)| ==>
            RowsAt(files, deleted)[i] < RowsAt(files, deleted)[j]
  {
    if files != [] { InOrder(files[..|files| - 1], deleted); }
  }

  /** The live rows are some of the rows, in their order, */
  lemma {:induction false} LiveIsSubsequence(files: seq<LegacyFile>)
    ensures var at := RowsAt(files, false);
            |at| == |Live(files)| && forall i :: 0 <= i < |at| ==>
              at[i] < |files| && Live(files)[i] == files[at[i]] && !files[at[i]].deleted
  {
    if files != [] { LiveIsSubsequence(files[..|files| - 1]); }
  }

  /** and so are the deleted ones, */
  lemma {:induction false} DeletedIsSubsequence(files: seq<LegacyFile>)
    ensures var at := RowsAt(files, true);
            |at| == |Deleted(files)| && forall i :: 0 <= i < |at| ==>
              at[i] < |files| && Deleted(files)[i] == files[at[i]] && files[at[i]].deleted
  {
    if files != [] { DeletedIsSubsequence(files[..|files| - 1]); }
  }

  /** and every row is among its own. */
  lemma {:induction false} RowIsAt(files: seq<LegacyFile>, n: nat) returns (i: nat)
    requires n < |files|
    ensures i < |RowsAt(files, files[n].deleted)| && RowsAt(files, files[n].deleted)[i] == n
  {
    if n == |files| - 1 {
      i := |RowsAt(files[..n], files[n].deleted)|;
    } else {
      i := RowIsAt(files[..|files| - 1], n);
    }
  }

  lemma PathsStayOwn(files: seq<LegacyFile>, versions: seq<LegacyVersion>, probe: Probe, random: seq<string>)
    requires OwnPaths(files) && DistinctIds(PlanOf(files, versions, probe, random))
    ensures Orderly(PlanOf(files, versions, probe, random))
  {
    LiveIsSubsequence(files);
    InOrder(files, false);
    RowsAreConserved(files, versions, probe, random);
    HistoryIsConserved(DeletedPass(LivePass(files, probe, random), files, versions, random).idOf, versions, probe);
  }

  lemma ResumableIsOrderly(files: seq<LegacyFile>, versions: seq<LegacyVersion>, probe: Probe)
    requires Resumable(files)
    ensures Orderly(PlanOf(files, versions, probe, []))
  {
    LiveIsSubsequence(files);
    DeletedIsSubsequence(files);
    InOrder(files, false);
    InOrder(files, true);
    GoodIdsAreKept(files, versions, probe, []);
    PathsStayOwn(files, versions, probe, []);
  }

  datatype Attempt = Attempt(random: seq<string>, cut: Option<Cut>)

  ghost function AfterAttempts(d: Db, files: seq<LegacyFile>, versions: seq<LegacyVersion>, probe: Probe,
          attempts: seq<Attempt>): Db
  {
    if attempts == [] then d
    else
      var last := attempts[|attempts| - 1];
      Attempted(AfterAttempts(d, files, versions, probe, attempts[..|attempts| - 1]), files, versions, probe,
        last.random, last.cut)
  }

  /** A schema 5 database: its rows are in the old tables and the new ones are empty. */
  predicate Unmigrated(d: Db) {
    d.heads == map[] && d.tombs == map[] && d.ledger == map[] && d.versions == map[] && Needs(d)
  }

  lemma OneAttempt(d0: Db, d: Db, files: seq<LegacyFile>, versions: seq<LegacyVersion>, probe: Probe, a: Attempt)
    requires Resumable(files) && Needs(d0) &&
             (UnderWay(d0, d, PlanOf(files, versions, probe, [])) ||
             Finished(d0, d, PlanOf(files, versions, probe, [])))
    ensures var plan, d' := PlanOf(files, versions, probe, []), Attempted(d, files, versions, probe, a.random, a.cut);
            Finished(d0, d', plan) || (UnderWay(d0, d', plan) && a.cut.Some?)
  {
    var plan := PlanOf(files, versions, probe, []);
    GoodIdsAreKept(files, versions, probe, a.random);
    ResumableIsOrderly(files, versions, probe);
    if !Finished(d0, d, plan) {
      if a.cut.Some? && a.cut.value.after < Count(plan) {
        CutKeepsUnderWay(d0, d, plan, a.cut.value);
      } else {
        UncutFinishes(d0, d, plan);
        if a.cut.Some? { LateCut(plan, d, 0, a.cut.value); }
      }
    }
  }

  lemma {:induction false} AttemptsKeepOn(d0: Db, files: seq<LegacyFile>, versions: seq<LegacyVersion>, probe: Probe,
          attempts: seq<Attempt>)
    requires Resumable(files) && Unmigrated(d0)
    ensures var plan, d := PlanOf(files, versions, probe, []), AfterAttempts(d0, files, versions, probe, attempts);
            UnderWay(d0, d, plan) || Finished(d0, d, plan)
  {
    if attempts != [] {
      AttemptsKeepOn(d0, files, versions, probe, attempts[..|attempts| - 1]);
      OneAttempt(d0, AfterAttempts(d0, files, versions, probe, attempts[..|attempts| - 1]), files, versions, probe,
        attempts[|attempts| - 1]);
    }
  }

  lemma OneAttemptIs(d0: Db, files: seq<LegacyFile>, versions: seq<LegacyVersion>, probe: Probe, a: Attempt)
    ensures AfterAttempts(d0, files, versions, probe, [a]) == Attempted(d0, files, versions, probe, a.random, a.cut)
  {
    assert [a][..0] == [];
  }

  lemma LastAttemptFinishes(d0: Db, files: seq<LegacyFile>, versions: seq<LegacyVersion>, probe: Probe,
          attempts: seq<Attempt>)
    requires Resumable(files) && Unmigrated(d0) && attempts != [] && attempts[|attempts| - 1].cut.None?
    ensures Finished(d0, AfterAttempts(d0, files, versions, probe, attempts), PlanOf(files, versions, probe, []))
  {
    AttemptsKeepOn(d0, files, versions, probe, attempts[..|attempts| - 1]);
    OneAttempt(d0, AfterAttempts(d0, files, versions, probe, attempts[..|attempts| - 1]), files, versions, probe,
      attempts[|attempts| - 1]);
  }

  /** Stopped after any transaction, with an error or without, any number of times, each time
      with other random ids, and then left to run: the result is to the last row and journal
      entry that of one run from the start. */
  lemma StopAnywhereRunAgain(d0: Db, files: seq<LegacyFile>, versions: seq<LegacyVersion>, probe: Probe,
          attempts: seq<Attempt>, random: seq<string>)
    requires Resumable(files) && Unmigrated(d0) && attempts != [] && attempts[|attempts| - 1].cut.None?
    ensures AfterAttempts(d0, files, versions, probe, attempts) == Attempted(d0, files, versions, probe, random, None)
    ensures Finished(d0, Attempted(d0, files, versions, probe, random, None), PlanOf(files, versions, probe, random))
    ensures !Needs(Attempted(d0, files, versions, probe, random, None))
  {
    LastAttemptFinishes(d0, files, versions, probe, attempts);
    LastAttemptFinishes(d0, files, versions, probe, [Attempt(random, None)]);
    OneAttemptIs(d0, files, versions, probe, Attempt(random, None));
    ResumableIsOrderly(files, versions, probe);
    GoodIdsAreKept(files, versions, probe, random);
    OneEnd(d0, AfterAttempts(d0, files, versions, probe, attempts), Attempted(d0, files, versions, probe, random, None),
      PlanOf(files, versions, probe, []));
  }
}
