/**
 Planning the move from the path-keyed tables of schema 5 to the object tables of schema 6:
 every live row becomes a live object, every deleted row a tombstone, and history rows follow
 the object they belong to.
 */
module PlanV6 {
  import opened Bytes
  import opened Options
  import opened Tables

  /** Paths are the key of the old table. */
  datatype LegacyFile = LegacyFile(
    path: string, fileId: string, deleted: bool, revision: int, contentHash: string, size: int, mtime: int,
    canonicalKey: string, metaEnc: string, metaGeneration: int, createdAt: int, updatedAt: int)

  datatype LegacyVersion = LegacyVersion(
    path: string, fileId: string, revision: int, blobId: string, contentHash: string, size: int, mtime: int,
    action: Action, deviceId: string, createdAt: int)

  /** What a look at a stored blob's header tells. */
  datatype Probe = Probe(envelope: string -> int, generation: string -> int, keyEpoch: string -> Option<int>)

  /** Rows placed so far.  `used` counts the random ids drawn. */
  datatype Placed = Placed(
    heads: seq<Head>, tombs: seq<Tombstone>, idOf: map<string, string>, seen: set<string>, used: nat,
    duplicates: nat, badEpochs: nat, pseudo: nat, review: nat)

  datatype History = History(versions: seq<Version>, taken: set<VersionKey>, prior: map<string, string>, orphans: nat,
    conflicts: nat)

  datatype Plan = Plan(heads: seq<Head>, tombs: seq<Tombstone>, versions: seq<Version>, floor: int, placed: Placed,
    history: History)

  const NOTHING_PLACED := Placed([], [], map[], {}, 0, 0, 0, 0, 0)
  const NO_HISTORY := History([], {}, map[], 0, 0)

  /** An id that is malformed or taken is replaced by a random one, if there is one to be had. */
  function Assign(p: Placed, id: string, random: seq<string>): (string, nat) {
    if IsHex32(id) && id !in p.seen then (id, p.used)
    else if p.used < |random| then (random[p.used], p.used + 1)
    else (id, p.used)
  }

  function HeadOf(f: LegacyFile, id: string, probe: Probe): Head {
    var epoch := probe.keyEpoch(f.contentHash);
    Head(id, f.revision, probe.generation(f.contentHash), f.contentHash, f.contentHash, f.size, f.mtime,
      f.metaGeneration, f.path,
         f.metaEnc, f.canonicalKey, if epoch.Some? then epoch.value
           else 0, probe.envelope(f.contentHash), f.createdAt, f.updatedAt)
  }

  function TombOf(f: LegacyFile, id: string, prior: string, review: bool): Tombstone {
    Tombstone(id, f.path, f.canonicalKey, f.revision, 0, f.metaGeneration, 0, prior, f.updatedAt, 0, 0, review)
  }

  function VersionFrom(v: LegacyVersion, id: string, probe: Probe): Version {
    var epoch := probe.keyEpoch(v.blobId);
    Version(id, v.revision, probe.generation(v.blobId), v.blobId, v.contentHash, v.size, v.mtime, v.action, v.deviceId,
            if epoch.Some? then epoch.value else 0, "", v.createdAt)
  }

  function PlaceLive(p: Placed, f: LegacyFile, probe: Probe, random: seq<string>): Placed {
    var (id, used) := Assign(p, f.fileId, random);
    p.(heads := p.heads + [HeadOf(f, id, probe)], idOf := p.idOf[f.path := id], seen := p.seen + {id}, used := used,
       duplicates := p.duplicates + if f.fileId in p.seen then 1 else 0,
       badEpochs := p.badEpochs + if probe.envelope(f.contentHash) == 3 &&
         probe.keyEpoch(f.contentHash).None? then 1 else 0)
  }

  predicate NoHistory(versions: seq<LegacyVersion>, path: string) {
    forall i :: 0 <= i < |versions| ==> versions[i].path != path
  }

  predicate Doubtful(p: Placed, f: LegacyFile, versions: seq<LegacyVersion>) {
    NoHistory(versions, f.path) || !IsHex32(f.fileId) || f.fileId in p.seen
  }

  function PlaceDeleted(p: Placed, f: LegacyFile, versions: seq<LegacyVersion>, random: seq<string>): Placed {
    var (id, used) := Assign(p, f.fileId, random);
    p.(tombs := p.tombs + [TombOf(f, id, "", Doubtful(p, f, versions))], seen := p.seen + {id}, used := used,
       idOf := if f.path in p.idOf then p.idOf else p.idOf[f.path := id],
       pseudo := p.pseudo + if NoHistory(versions, f.path) then 1 else 0,
       review := p.review + if Doubtful(p, f, versions) then 1 else 0)
  }

  function LivePass(files: seq<LegacyFile>, probe: Probe, random: seq<string>): Placed {
    if files == [] then NOTHING_PLACED
    else
      var p, f := LivePass(files[..|files| - 1], probe, random), files[|files| - 1];
      if f.deleted then p else PlaceLive(p, f, probe, random)
  }

  function DeletedPass(start: Placed, files: seq<LegacyFile>, versions: seq<LegacyVersion>,
          random: seq<string>): Placed
  {
    if files == [] then start
    else
      var p, f := DeletedPass(start, files[..|files| - 1], versions, random), files[|files| - 1];
      if f.deleted then PlaceDeleted(p, f, versions, random) else p
  }

  /** The object a history row belongs to: its own id, or its path's; "" for none. */
  function Owner(idOf: map<string, string>, v: LegacyVersion): string {
    if IsHex32(v.fileId) then v.fileId else if v.path in idOf then idOf[v.path] else ""
  }

  function PlaceVersion(h: History, idOf: map<string, string>, v: LegacyVersion, probe: Probe): History {
    var id := Owner(idOf, v);
    if id == "" then h.(orphans := h.orphans + 1)
    else if (id, v.revision) in h.taken then h.(conflicts := h.conflicts + 1)
    else h.(versions := h.versions + [VersionFrom(v, id, probe)], taken := h.taken + {(id, v.revision)},
            prior := if v.action != Delete && v.contentHash != "" then h.prior[id := v.contentHash] else h.prior)
  }

  function VersionPass(idOf: map<string, string>, versions: seq<LegacyVersion>, probe: Probe): History {
    if versions == [] then NO_HISTORY
    else PlaceVersion(VersionPass(idOf, versions[..|versions| - 1], probe), idOf, versions[|versions| - 1], probe)
  }

  function PriorOf(prior: map<string, string>, id: string): string {
    if id in prior then prior[id] else ""
  }

  function WithPriors(tombs: seq<Tombstone>, prior: map<string, string>): seq<Tombstone> {
    seq(|tombs|, i requires 0 <= i < |tombs| => tombs[i].(priorContentHash := PriorOf(prior, tombs[i].fileId)))
  }

  function PlanOf(files: seq<LegacyFile>, versions: seq<LegacyVersion>, probe: Probe, random: seq<string>): Plan {
    var p := DeletedPass(LivePass(files, probe, random), files, versions, random);
    var h := VersionPass(p.idOf, versions, probe);
    Plan(p.heads, WithPriors(p.tombs, h.prior), h.versions, FloorOf(p.heads), p, h)
  }

  /** The lowest envelope that may be demanded of what is there. */
  function FloorOf(heads: seq<Head>): int {
    if heads != [] && forall i :: 0 <= i < |heads| ==> heads[i].envelope == 3 then 3
    else if exists i :: 0 <= i < |heads| && 1 <= heads[i].envelope <= 3 then 1
    else 0
  }

  // ---------- the planner ----------

  method InferEnvelopeFloor(heads: seq<Head>) returns (r: int)
    ensures r == 3 <==> heads != [] && forall i :: 0 <= i < |heads| ==> heads[i].envelope == 3
    ensures r == 1 <==> r != 3 && exists i :: 0 <= i < |heads| && 1 <= heads[i].envelope <= 3
    ensures r == 0 || r == 1 || r == 3
  {
    if |heads| == 0 { return 0; }
    var allV3, anyEncrypted := true, false;
    for i := 0 to |heads|
      invariant allV3 <==> forall j :: 0 <= j < i ==> heads[j].envelope == 3
      invariant anyEncrypted <==> exists j :: 0 <= j < i && 1 <= heads[j].envelope <= 3
    {
      if heads[i].envelope == 3 {
        anyEncrypted := true;
      } else if heads[i].envelope == 1 || heads[i].envelope == 2 {
        anyEncrypted, allV3 := true, false;
      } else {
        allV3 := false;
      }
    }
    assert allV3 ==> heads[0].envelope == 3;
    if anyEncrypted && allV3 { return 3; }
    return if anyEncrypted then 1 else 0;
  }

  method MakePlan(files: seq<LegacyFile>, versions: seq<LegacyVersion>, probe: Probe, random: seq<string>)
    returns (plan: Plan)
    ensures plan == PlanOf(files, versions, probe, random)
  {
    var p := NOTHING_PLACED;
    for i := 0 to |files|
      invariant p == LivePass(files[..i], probe, random)
    {
      var f := files[i];
      assert files[..i + 1][..i] == files[..i];
      if f.deleted { continue; }
      p := PlanLive(p, f, probe, random);
    }
    assert files[..|files|] == files;
    var floor := InferEnvelopeFloor(p.heads);
    ghost var live := p;
    for i := 0 to |files|
      invariant p == DeletedPass(live, files[..i], versions, random)
    {
      var f := files[i];
      assert files[..i + 1][..i] == files[..i];
      if !f.deleted { continue; }
      p := PlanDeleted(p, f, versions, random);
    }
    var h := PlanHistory(p.idOf, versions, probe);
    DeletedKeepsHeads(live, files, versions, random);
    var tombs := p.tombs;
    for i := 0 to |tombs|
      invariant |tombs| == |p.tombs|
      invariant forall j :: 0 <= j < |tombs| ==>
                tombs[j] == if j < i then p.tombs[j].(priorContentHash := PriorOf(h.prior, p.tombs[j].fileId))
                else p.tombs[j]
    {
      tombs := tombs[i := tombs[i].(priorContentHash := if tombs[i].fileId in h.prior then h.prior[tombs[i].fileId]
        else "")];
    }
    assert tombs == WithPriors(p.tombs, h.prior);
    return Plan(p.heads, tombs, h.versions, floor, p, h);
  }

  method PlanLive(p: Placed, f: LegacyFile, probe: Probe, random: seq<string>) returns (r: Placed)
    ensures r == PlaceLive(p, f, probe, random)
  {
    r := p;
    var id := f.fileId;
    if !IsHex32(id) || id in r.seen {
      if id in r.seen { r := r.(duplicates := r.duplicates + 1); }
      if r.used < |random| {
        id := random[r.used];
        r := r.(used := r.used + 1);
      }
    }
    r := r.(seen := r.seen + {id}, idOf := r.idOf[f.path := id]);
    if probe.envelope(f.contentHash) == 3 && probe.keyEpoch(f.contentHash).None? {
      r := r.(badEpochs := r.badEpochs + 1);
    }
    r := r.(heads := r.heads + [HeadOf(f, id, probe)]);
  }

  method PlanDeleted(p: Placed, f: LegacyFile, versions: seq<LegacyVersion>, random: seq<string>) returns (r: Placed)
    ensures r == PlaceDeleted(p, f, versions, random)
  {
    r := p;
    var id, needsReview := f.fileId, false;
    var bare := true;
    for i := 0 to |versions|
      invariant bare <==> NoHistory(versions[..i], f.path)
    {
      if versions[i].path == f.path { bare := false; }
    }
    assert versions[..|versions|] == versions;
    if bare {
      needsReview := true;
      r := r.(pseudo := r.pseudo + 1);
    }
    if !IsHex32(id) || id in r.seen {
      if r.used < |random| {
        id := random[r.used];
        r := r.(used := r.used + 1);
      }
      needsReview := true;
    }
    if needsReview { r := r.(review := r.review + 1); }
    r := r.(seen := r.seen + {id});
    if f.path !in r.idOf { r := r.(idOf := r.idOf[f.path := id]); }
    r := r.(tombs := r.tombs + [TombOf(f, id, "", needsReview)]);
  }

  method PlanHistory(idOf: map<string, string>, versions: seq<LegacyVersion>, probe: Probe) returns (h: History)
    ensures h == VersionPass(idOf, versions, probe)
  {
    h := NO_HISTORY;
    for i := 0 to |versions|
      invariant h == VersionPass(idOf, versions[..i], probe)
    {
      var v := versions[i];
      assert versions[..i + 1][..i] == versions[..i];
      var id := v.fileId;
      if !IsHex32(id) { id := if v.path in idOf then idOf[v.path] else ""; }
      if id == "" {
        h := h.(orphans := h.orphans + 1);
        continue;
      }
      if (id, v.revision) in h.taken {
        h := h.(conflicts := h.conflicts + 1);
        continue;
      }
      h := h.(taken := h.taken + {(id, v.revision)});
      if v.action != Delete && v.contentHash != "" { h := h.(prior := h.prior[id := v.contentHash]); }
      h := h.(versions := h.versions + [VersionFrom(v, id, probe)]);
    }
    assert versions[..|versions|] == versions;
  }

  // ---------- conservation ----------

  function Live(files: seq<LegacyFile>): seq<LegacyFile> {
    if files == [] then [] else Live(files[..|files| - 1]) + if files[|files| - 1].deleted then []
       else [files[|files| - 1]]
  }

  function Deleted(files: seq<LegacyFile>): seq<LegacyFile> {
    if files == [] then [] else Deleted(files[..|files| - 1]) + if files[|files| - 1].deleted then [files[|files| - 1]]
       else []
  }

  lemma {:induction false} LiveAndDeleted(files: seq<LegacyFile>)
    ensures |Live(files)| + |Deleted(files)| == |files|
    ensures forall f :: f in Live(files) <==> f in files && !f.deleted
    ensures forall f :: f in Deleted(files) <==> f in files && f.deleted
  {
    if files != [] {
      LiveAndDeleted(files[..|files| - 1]);
      assert files == files[..|files| - 1] + [files[|files| - 1]];
    }
  }

  lemma {:induction false} DeletedKeepsHeads(start: Placed, files: seq<LegacyFile>, versions: seq<LegacyVersion>,
          random: seq<string>)
    ensures DeletedPass(start, files, versions, random).heads == start.heads
  {
    if files != [] { DeletedKeepsHeads(start, files[..|files| - 1], versions, random); }
  }

  lemma {:induction false} LivePassKeeps(files: seq<LegacyFile>, probe: Probe, random: seq<string>)
    ensures var p := LivePass(files, probe, random);
            p.tombs == [] && |p.heads| == |Live(files)| &&
            forall i :: 0 <= i < |p.heads| ==> p.heads[i] == HeadOf(Live(files)[i], p.heads[i].fileId, probe)
  {
    if files != [] { LivePassKeeps(files[..|files| - 1], probe, random); }
  }

  ghost predicate TombsFit(tombs: seq<Tombstone>, rows: seq<LegacyFile>) {
    |tombs| == |rows| && forall i :: 0 <= i < |tombs| ==>
      tombs[i] == TombOf(rows[i], tombs[i].fileId, tombs[i].priorContentHash, tombs[i].needsReview)
  }

  lemma {:induction false} DeletedPassKeeps(start: Placed, files: seq<LegacyFile>, versions: seq<LegacyVersion>,
          random: seq<string>)
    requires start.tombs == []
    ensures TombsFit(DeletedPass(start, files, versions, random).tombs, Deleted(files))
  {
    if files != [] { DeletedPassKeeps(start, files[..|files| - 1], versions, random); }
  }

  /** Live rows become heads one for one, with everything they say and their revision kept;
      deleted rows become tombstones one for one. */
  lemma RowsAreConserved(files: seq<LegacyFile>, versions: seq<LegacyVersion>, probe: Probe, random: seq<string>)
    ensures var plan := PlanOf(files, versions, probe, random);
            |plan.heads| + |plan.tombs| == |files| && |plan.heads| == |Live(files)| &&
              TombsFit(plan.tombs, Deleted(files)) &&
            (forall i :: 0 <= i < |plan.heads| ==>
              plan.heads[i] == HeadOf(Live(files)[i], plan.heads[i].fileId, probe)) &&
            forall i :: 0 <= i < |plan.heads| ==>
              plan.heads[i].revision == Live(files)[i].revision && plan.heads[i].pseudonym == Live(files)[i].path
  {
    LiveAndDeleted(files);
    LivePassKeeps(files, probe, random);
    DeletedKeepsHeads(LivePass(files, probe, random), files, versions, random);
    DeletedPassKeeps(LivePass(files, probe, random), files, versions, random);
  }

  // ---------- identities ----------

  /** The random ids are well formed, differ from one another and from every id in the rows,
      and there are enough of them. */
  ghost predicate Fresh(random: seq<string>, files: seq<LegacyFile>) {
    |random| >= |files| && (forall i :: 0 <= i < |random| ==> IsHex32(random[i])) &&
    (forall i, j :: 0 <= i < j < |random| ==> random[i] != random[j]) &&
    forall i, f :: 0 <= i < |random| && f in files ==> random[i] != f.fileId
  }

  /** Every object placed so far has an id of its own. */
  ghost predicate OwnIds(p: Placed, files: seq<LegacyFile>, random: seq<string>) {
    p.used <= |p.heads| + |p.tombs| && p.used <= |random| &&
    (forall i, j :: 0 <= i < j < |p.heads| ==> p.heads[i].fileId != p.heads[j].fileId) &&
    (forall i, j :: 0 <= i < j < |p.tombs| ==> p.tombs[i].fileId != p.tombs[j].fileId) &&
    (forall i, j :: 0 <= i < |p.heads| && 0 <= j < |p.tombs| ==> p.heads[i].fileId != p.tombs[j].fileId) &&
    (forall i :: 0 <= i < |p.heads| ==> p.heads[i].fileId in p.seen) &&
      (forall i :: 0 <= i < |p.tombs| ==> p.tombs[i].fileId in p.seen) &&
    forall id :: id in p.seen ==>
      IsHex32(id) &&
      ((exists f :: f in files && f.fileId == id) || exists k :: 0 <= k < p.used && random[k] == id)
  }

  lemma OneMoreHead(p: Placed, f: LegacyFile, files: seq<LegacyFile>, probe: Probe, random: seq<string>)
    requires Fresh(random, files) && f in files && OwnIds(p, files, random) && |p.heads| + |p.tombs| < |files|
    ensures OwnIds(PlaceLive(p, f, probe, random), files, random)
  {
  }

  lemma {:induction false} LiveIdsAreOwn(files: seq<LegacyFile>, n: nat, probe: Probe, random: seq<string>)
    requires Fresh(random, files) && n <= |files|
    ensures OwnIds(LivePass(files[..n], probe, random), files, random)
    ensures var p := LivePass(files[..n], probe, random); p.tombs == [] && |p.heads| == |Live(files[..n])|
  {
    LivePassKeeps(files[..n], probe, random);
    if n > 0 {
      assert files[..n][..n - 1] == files[..n - 1];
      LiveIdsAreOwn(files, n - 1, probe, random);
      LiveAndDeleted(files[..n - 1]);
      OneMoreHead(LivePass(files[..n - 1], probe, random), files[n - 1], files, probe, random);
    }
  }

  lemma {:induction false} DeletedIdsAreOwn(start: Placed, files: seq<LegacyFile>, n: nat, versions: seq<LegacyVersion>,
          random: seq<string>)
    requires Fresh(random, files) && n <= |files| && OwnIds(start, files, random) && start.tombs == [] &&
             |start.heads| == |Live(files)|
    ensures var p := DeletedPass(start, files[..n], versions, random);
            OwnIds(p, files, random) && p.heads == start.heads && |p.tombs| == |Deleted(files[..n])|
  {
    if n > 0 {
      assert files[..n][..n - 1] == files[..n - 1];
      DeletedIdsAreOwn(start, files, n - 1, versions, random);
      var p := DeletedPass(start, files[..n - 1], versions, random);
      if files[n - 1].deleted {
        FewerDeleted(files, n);
        LiveAndDeleted(files);
        OneMoreTomb(p, files[n - 1], files, versions, random);
      }
    }
  }

  lemma OneMoreTomb(p: Placed, f: LegacyFile, files: seq<LegacyFile>, versions: seq<LegacyVersion>, random: seq<string>)
    requires Fresh(random, files) && f in files && OwnIds(p, files, random) && |p.heads| + |p.tombs| < |files|
    ensures OwnIds(PlaceDeleted(p, f, versions, random), files, random)
  {
  }

  lemma {:induction false} FewerDeleted(files: seq<LegacyFile>, n: nat)
    requires 0 < n <= |files| && files[n - 1].deleted
    ensures |Deleted(files[..n - 1])| < |Deleted(files)|
  {
    var init := files[..|files| - 1];
    if n == |files| {
      assert init == files[..n - 1];
    } else {
      assert init[..n - 1] == files[..n - 1];
      FewerDeleted(init, n);
    }
  }

  /** With a source of fresh ids, every planned object has an id of its own. */
  lemma IdsAreDistinct(files: seq<LegacyFile>, versions: seq<LegacyVersion>, probe: Probe, random: seq<string>)
    requires Fresh(random, files)
    ensures DistinctIds(PlanOf(files, versions, probe, random))
  {
    LiveIdsAreOwn(files, |files|, probe, random);
    assert files[..|files|] == files;
    DeletedIdsAreOwn(LivePass(files, probe, random), files, |files|, versions, random);
    var p := DeletedPass(LivePass(files, probe, random), files, versions, random);
    var plan := PlanOf(files, versions, probe, random);
    assert forall i :: 0 <= i < |plan.tombs| ==> plan.tombs[i].fileId == p.tombs[i].fileId;
  }

  ghost predicate DistinctIds(plan: Plan) {
    (forall i :: 0 <= i < |plan.heads| ==> IsHex32(plan.heads[i].fileId)) &&
    (forall i :: 0 <= i < |plan.tombs| ==> IsHex32(plan.tombs[i].fileId)) &&
    (forall i, j :: 0 <= i < j < |plan.heads| ==> plan.heads[i].fileId != plan.heads[j].fileId) &&
    (forall i, j :: 0 <= i < j < |plan.tombs| ==> plan.tombs[i].fileId != plan.tombs[j].fileId) &&
    forall i, j :: 0 <= i < |plan.heads| && 0 <= j < |plan.tombs| ==> plan.heads[i].fileId != plan.tombs[j].fileId
  }

  /** Ids that are fine already. */
  ghost predicate GoodIds(files: seq<LegacyFile>) {
    (forall i :: 0 <= i < |files| ==> IsHex32(files[i].fileId)) && forall i, j :: 0 <= i < j < |files| ==>
      files[i].fileId != files[j].fileId
  }

  /** Ids of live rows that are fine already. */
  ghost predicate GoodLiveIds(files: seq<LegacyFile>) {
    (forall i :: 0 <= i < |files| && !files[i].deleted ==> IsHex32(files[i].fileId)) &&
    forall i, j :: 0 <= i < j < |files| && !files[i].deleted && !files[j].deleted ==> files[i].fileId != files[j].fileId
  }

  lemma {:induction false} GoodLiveKept(files: seq<LegacyFile>, n: nat, probe: Probe, random: seq<string>)
    requires GoodLiveIds(files) && n <= |files|
    ensures LivePass(files[..n], probe, random) == LivePass(files[..n], probe, [])
    ensures var p := LivePass(files[..n], probe, []);
            p.used == 0 && p.tombs == [] &&
              (forall id :: id in p.seen ==> exists j :: 0 <= j < n && !files[j].deleted && files[j].fileId == id) &&
            |p.heads| == |Live(files[..n])| && forall i :: 0 <= i < |p.heads| ==>
              p.heads[i].fileId == Live(files[..n])[i].fileId
  {
    LivePassKeeps(files[..n], probe, []);
    if n > 0 {
      assert files[..n][..n - 1] == files[..n - 1];
      LivePassKeeps(files[..n - 1], probe, []);
      GoodLiveKept(files, n - 1, probe, random);
    }
  }

  lemma {:induction false} GoodDeletedKept(start: Placed, files: seq<LegacyFile>, n: nat, versions: seq<LegacyVersion>,
          random: seq<string>)
    requires GoodIds(files) && n <= |files| && start.used == 0 && start.tombs == []
    requires forall id :: id in start.seen ==>
             exists j :: 0 <= j < |files| && !files[j].deleted && files[j].fileId == id
    ensures DeletedPass(start, files[..n], versions, random) == DeletedPass(start, files[..n], versions, [])
    ensures var p := DeletedPass(start, files[..n], versions, []);
            p.used == 0 && (forall id :: id in p.seen ==>
              exists j :: 0 <= j < |files| && (files[j].deleted ==> j < n) && files[j].fileId == id) &&
            |p.tombs| == |Deleted(files[..n])| && forall i :: 0 <= i < |p.tombs| ==>
              p.tombs[i].fileId == Deleted(files[..n])[i].fileId
  {
    if n > 0 {
      assert files[..n][..n - 1] == files[..n - 1];
      GoodDeletedKept(start, files, n - 1, versions, random);
    }
  }

  /** Ids that are well formed and distinct are all kept; no random id is drawn, so the plan
      does not depend on the source of them. */
  lemma GoodIdsAreKept(files: seq<LegacyFile>, versions: seq<LegacyVersion>, probe: Probe, random: seq<string>)
    requires GoodIds(files)
    ensures PlanOf(files, versions, probe, random) == PlanOf(files, versions, probe, [])
    ensures var plan := PlanOf(files, versions, probe, random);
            |plan.heads| == |Live(files)| && |plan.tombs| == |Deleted(files)| &&
            (forall i :: 0 <= i < |plan.heads| ==> plan.heads[i].fileId == Live(files)[i].fileId) &&
            forall i :: 0 <= i < |plan.tombs| ==> plan.tombs[i].fileId == Deleted(files)[i].fileId
  {
    assert files[..|files|] == files;
    GoodLiveKept(files, |files|, probe, random);
    GoodDeletedKept(LivePass(files, probe, []), files, |files|, versions, random);
    RowsAreConserved(files, versions, probe, []);
    DeletedKeepsHeads(LivePass(files, probe, []), files, versions, []);
  }

  // ---------- history ----------

  ghost predicate UniqueVersions(versions: seq<Version>) {
    forall i, j :: 0 <= i < j < |versions| ==>
      (versions[i].fileId, versions[i].revision) != (versions[j].fileId, versions[j].revision)
  }

  /** Planned versions are unique by object and revision, and these are the places taken. */
  ghost predicate PlacesTaken(h: History) {
    UniqueVersions(h.versions) && forall k :: k in h.taken <==>
      exists v :: v in h.versions && (v.fileId, v.revision) == k
  }

  /** Each planned version is one of the rows, and every row that is no orphan has its place taken. */
  ghost predicate RowsPlaced(h: History, idOf: map<string, string>, versions: seq<LegacyVersion>, probe: Probe) {
    (forall v :: v in h.versions ==>
      exists r :: r in versions && Owner(idOf, r) != "" && v == VersionFrom(r, Owner(idOf, r), probe)) &&
    forall r :: r in versions && Owner(idOf, r) != "" ==> (Owner(idOf, r), r.revision) in h.taken
  }

  lemma {:induction false} HistoryCounts(idOf: map<string, string>, versions: seq<LegacyVersion>, probe: Probe)
    ensures var h := VersionPass(idOf, versions, probe); |h.versions| + h.orphans + h.conflicts == |versions|
  {
    if versions != [] { HistoryCounts(idOf, versions[..|versions| - 1], probe); }
  }

  lemma {:induction false} PlacesAreTaken(idOf: map<string, string>, versions: seq<LegacyVersion>, probe: Probe)
    ensures PlacesTaken(VersionPass(idOf, versions, probe))
  {
    if versions != [] {
      PlacesAreTaken(idOf, versions[..|versions| - 1], probe);
      OneMorePlace(VersionPass(idOf, versions[..|versions| - 1], probe), idOf, versions[|versions| - 1], probe);
    }
  }

  lemma OneMorePlace(h: History, idOf: map<string, string>, row: LegacyVersion, probe: Probe)
    requires PlacesTaken(h)
    ensures PlacesTaken(PlaceVersion(h, idOf, row, probe))
  {
    var id := Owner(idOf, row);
    if id != "" && (id, row.revision) !in h.taken {
      var v := VersionFrom(row, id, probe);
      assert forall w :: w in h.versions ==> (w.fileId, w.revision) != (id, row.revision);
      assert forall w :: w in h.versions + [v] <==> w in h.versions || w == v;
      assert v in h.versions + [v];
    }
  }

  lemma {:induction false} RowsArePlaced(idOf: map<string, string>, versions: seq<LegacyVersion>, probe: Probe)
    ensures RowsPlaced(VersionPass(idOf, versions, probe), idOf, versions, probe)
  {
    if versions != [] {
      var init, row := versions[..|versions| - 1], versions[|versions| - 1];
      var h := VersionPass(idOf, init, probe);
      RowsArePlaced(idOf, init, probe);
      MoreRowsPlaced(h, PlaceVersion(h, idOf, row, probe), idOf, init, row, probe);
      assert versions == init + [row];
    }
  }

  /** Every history row is planned, an orphan or a duplicate; planned ones are unique by object
      and revision, each is one of the rows, and a duplicate's place is taken by another row. */
  lemma HistoryIsConserved(idOf: map<string, string>, versions: seq<LegacyVersion>, probe: Probe)
    ensures PlacesTaken(VersionPass(idOf, versions, probe))
    ensures RowsPlaced(VersionPass(idOf, versions, probe), idOf, versions, probe)
    ensures var h := VersionPass(idOf, versions, probe); |h.versions| + h.orphans + h.conflicts == |versions|
  {
    HistoryCounts(idOf, versions, probe);
    PlacesAreTaken(idOf, versions, probe);
    RowsArePlaced(idOf, versions, probe);
  }

  lemma MoreRowsPlaced(h: History, h': History, idOf: map<string, string>, init: seq<LegacyVersion>, row: LegacyVersion,
          probe: Probe)
    requires RowsPlaced(h, idOf, init, probe) && h.taken <= h'.taken
    requires forall v :: v in h'.versions ==>
             v in h.versions || (Owner(idOf, row) != "" && v == VersionFrom(row, Owner(idOf, row), probe))
    requires Owner(idOf, row) != "" ==> (Owner(idOf, row), row.revision) in h'.taken
    ensures RowsPlaced(h', idOf, init + [row], probe)
  {
    forall v | v in h'.versions
      ensures exists r :: r in init + [row] && Owner(idOf, r) != "" && v == VersionFrom(r, Owner(idOf, r), probe)
    {
      if v in h.versions {
        var r :| r in init && Owner(idOf, r) != "" && v == VersionFrom(r, Owner(idOf, r), probe);
        assert r in init + [row];
      } else {
        assert row in init + [row];
      }
    }
  }

  /** The content a tombstone goes back to: the last planned content of its object. */
  function LastContent(versions: seq<Version>, id: string): string {
    if versions == [] then ""
    else
      var v := versions[|versions| - 1];
      if v.fileId == id && v.action != Delete &&
         v.contentHash != "" then v.contentHash else LastContent(versions[..|versions| - 1], id)
  }

  lemma {:induction false} PriorIsLastContent(idOf: map<string, string>, versions: seq<LegacyVersion>, probe: Probe,
          id: string)
    ensures var h := VersionPass(idOf, versions, probe); PriorOf(h.prior, id) == LastContent(h.versions, id)
  {
    if versions != [] {
      PriorIsLastContent(idOf, versions[..|versions| - 1], probe, id);
      OneMorePrior(VersionPass(idOf, versions[..|versions| - 1], probe), idOf, versions[|versions| - 1], probe, id);
    }
  }

  lemma OneMorePrior(h: History, idOf: map<string, string>, row: LegacyVersion, probe: Probe, id: string)
    requires PriorOf(h.prior, id) == LastContent(h.versions, id)
    ensures var h' := PlaceVersion(h, idOf, row, probe); PriorOf(h'.prior, id) == LastContent(h'.versions, id)
  {
    LastContentSnoc(h.versions, VersionFrom(row, Owner(idOf, row), probe), id);
  }

  lemma LastContentSnoc(versions: seq<Version>, v: Version, id: string)
    ensures LastContent(versions + [v], id) ==
            if v.fileId == id && v.action != Delete && v.contentHash != "" then v.contentHash
            else LastContent(versions, id)
  {
    assert (versions + [v])[..|versions|] == versions;
  }
}
