/**
 Whole runs of the object store: the life cycle of an object, its revisions and history, the
 change log, and what a client that follows the log ends up with.
 */
module Runs {
  import opened Bytes
  import opened Options
  import opened Tables
  import opened Requests
  import opened Steps
  import opened Effects

  ghost function Run(o: Oracle, c: Config, s: Store, steps: seq<Step>): Store {
    if steps == [] then s else Next(o, c, Run(o, c, s, steps[..|steps| - 1]), steps[|steps| - 1])
  }

  // ---------- the life cycle ----------

  lemma EmptyIsSound(repoEpoch: string)
    ensures Sound(EmptyStore(repoEpoch)) && HistoryFits(EmptyStore(repoEpoch)) && LogKnown(EmptyStore(repoEpoch))
  {
  }

  lemma EffectKeepsLifeCycle(s: Store, s': Store, e: Effect)
    requires Sound(s) && HasEffect(s, s', e)
    ensures LifeCycle(s')
  {
  }

  /** Trimming and publishing keep the log dense, and neither end of it ever moves back. */
  lemma EffectKeepsLogDense(s: Store, s': Store, e: Effect)
    requires LogDense(s) && HasEffect(s, s', e)
    ensures LogDense(s')
    ensures s.repo.head <= s'.repo.head && s.repo.minRetained <= s'.repo.minRetained
  {
    if e.Quiet? { AfterDense(s.log, s.repo.minRetained, s'.repo.minRetained); }
  }

  lemma EffectKeepsSound(s: Store, s': Store, e: Effect)
    requires Sound(s) && HasEffect(s, s', e)
    ensures Sound(s')
    ensures s.repo.head <= s'.repo.head && s.repo.minRetained <= s'.repo.minRetained
  {
    EffectKeepsLifeCycle(s, s', e);
    EffectKeepsLogDense(s, s', e);
  }

  lemma StepKeepsSound(o: Oracle, c: Config, s: Store, step: Step)
    requires Sound(s)
    ensures Sound(Next(o, c, s, step))
    ensures s.repo.head <= Next(o, c, s, step).repo.head && s.repo.minRetained <= Next(o, c, s, step).repo.minRetained
  {
    var e := StepEffect(o, c, s, step);
    EffectKeepsSound(s, Next(o, c, s, step), e);
  }

  /** In every run the tables agree about what is live, names stay unique, the log holds
      exactly the sequences minRetained+1 .. head, and neither bound ever decreases. */
  lemma {:induction false} RunKeepsSound(o: Oracle, c: Config, s: Store, steps: seq<Step>)
    requires Sound(s)
    ensures Sound(Run(o, c, s, steps))
    ensures s.repo.head <= Run(o, c, s, steps).repo.head && s.repo.minRetained <= Run(o, c, s, steps).repo.minRetained
  {
    if steps != [] {
      var init := steps[..|steps| - 1];
      RunKeepsSound(o, c, s, init);
      StepKeepsSound(o, c, Run(o, c, s, init), steps[|steps| - 1]);
    }
  }

  // ---------- history ----------

  /** The revision an object has reached, live or deleted. */
  ghost function Reached(s: Store, f: string): Option<int> {
    if f in s.heads then Some(s.heads[f].revision)
    else if f in s.tombs then Some(s.tombs[f].deletionRevision)
    else None
  }

  /** Every version is of a known object and no later than the revision it has reached. */
  ghost predicate HistoryFits(s: Store) {
    forall k :: k in s.versions ==> k.0 in s.ledger && (Reached(s, k.0).Some? ==> k.1 <= Reached(s, k.0).value)
  }

  ghost predicate LogKnown(s: Store) {
    forall i :: 0 <= i < |s.log| ==> s.log[i].fileId in s.ledger
  }

  lemma EffectKeepsHistory(s: Store, s': Store, e: Effect)
    requires Sound(s) && HistoryFits(s) && HasEffect(s, s', e)
    ensures HistoryFits(s')
  {
  }

  lemma EffectKeepsLogKnown(s: Store, s': Store, e: Effect)
    requires LogDense(s) && LogKnown(s) && HasEffect(s, s', e)
    ensures LogKnown(s')
  {
    if e.Quiet? { AfterDense(s.log, s.repo.minRetained, s'.repo.minRetained); }
  }

  lemma {:induction false} RunKeepsHistory(o: Oracle, c: Config, s: Store, steps: seq<Step>)
    requires Sound(s) && HistoryFits(s) && LogKnown(s)
    ensures HistoryFits(Run(o, c, s, steps)) && LogKnown(Run(o, c, s, steps))
  {
    if steps != [] {
      var s0 := Run(o, c, s, steps[..|steps| - 1]);
      RunKeepsHistory(o, c, s, steps[..|steps| - 1]);
      RunKeepsSound(o, c, s, steps[..|steps| - 1]);
      var e := StepEffect(o, c, s0, steps[|steps| - 1]);
      EffectKeepsHistory(s0, Run(o, c, s, steps), e);
      EffectKeepsLogKnown(s0, Run(o, c, s, steps), e);
    }
  }

  /** A write or deletion records its version under a key no version has: the insert's
      DO NOTHING never silently drops history.  A rename or migration records none. */
  lemma VersionKeyIsFresh(s: Store, s': Store, e: Effect)
    requires Sound(s) && HistoryFits(s) && HasEffect(s, s', e)
    ensures e.Wrote? && e.kind != Touched ==> (e.h.fileId, e.h.revision) !in s.versions
    ensures e.Erased? ==> (e.t.fileId, e.t.deletionRevision) !in s.versions
  {
  }

  /** The revision of an object rises by one with every content write, deletion and restore,
      stays with renames and migrations, and starts at one. */
  lemma RevisionsRiseByOne(o: Oracle, c: Config, s: Store, step: Step, f: string)
    requires Sound(s) && f in Next(o, c, s, step).ledger
    ensures RisesByOne(s.ledger, step, f, Reached(s, f), Reached(Next(o, c, s, step), f))
  {
    var e := StepEffect(o, c, s, step);
    RiseByEffect(s, Next(o, c, s, step), e, step, f);
  }

  lemma RiseByEffect(s: Store, s': Store, e: Effect, step: Step, f: string)
    requires Sound(s) && HasEffect(s, s', e) && f in s'.ledger
    requires (e.Wrote? ==> KindOf(step, e.kind)) && (e.Erased? ==> step.DeleteObject?) &&
             (e.Quiet? ==> KeepsTombs(step, s, s'))
    ensures RisesByOne(s.ledger, step, f, Reached(s, f), Reached(s', f))
  {
    RevisionsByEffect(s, s', e, f);
    if e.Quiet? && f in s.tombs && f !in s'.tombs { OnlyPurgeTakes(s, s', step, f); }
  }

  /** What a committed step publishes is the revision its object has reached by it: one more
      than before with a content write, a deletion or a restore, the same with a rename or a
      migration, and one for a new object. */
  lemma PublishedRevision(o: Oracle, c: Config, s: Store, step: Step) returns (change: Change)
    requires Sound(s) && Next(o, c, s, step).repo.head > s.repo.head
    ensures Next(o, c, s, step).log == s.log + [change] &&
            Reached(Next(o, c, s, step), change.fileId) == Some(change.revision)
    ensures change.revision == RevisionAfter(step, Reached(s, change.fileId))
  {
    var e := StepEffect(o, c, s, step);
    change := e.c;
    RevisionOfEffect(s, Next(o, c, s, step), e, step);
  }

  function RevisionAfter(step: Step, before: Option<int>): int {
    if before.None? then 1 else before.value + if step.Rename? || step.MigrateObject? then 0 else 1
  }

  lemma RevisionOfEffect(s: Store, s': Store, e: Effect, step: Step)
    requires Sound(s) && HasEffect(s, s', e) && !e.Quiet?
    requires e.Wrote? ==> KindOf(step, e.kind)
    requires e.Erased? ==> step.DeleteObject?
    ensures Reached(s', e.c.fileId) == Some(e.c.revision) && e.c.revision == RevisionAfter(step, Reached(s, e.c.fileId))
  {
  }

  lemma OnlyPurgeTakes(s: Store, s': Store, step: Step, f: string)
    requires KeepsTombs(step, s, s') && f in s.tombs && f !in s'.tombs
    ensures step.Purge?
  {
  }

  predicate RisesByOne(ledger: map<string, LedgerRow>, step: Step, f: string, before: Option<int>, after: Option<int>) {
    && (before.None? && after.Some? ==> f !in ledger && after.value == 1)
    && (before.Some? && after.None? ==> step.Purge?)
    && (before.Some? && after.Some? ==> before.value <= after.value <= before.value + 1)
    && (before.Some? && after.Some? && (step.Rename? || step.MigrateObject?) ==> after == before)
  }

  lemma RevisionsByEffect(s: Store, s': Store, e: Effect, f: string)
    requires Sound(s) && HasEffect(s, s', e) && f in s'.ledger
    ensures Reached(s, f).None? && Reached(s', f).Some? ==> f !in s.ledger && Reached(s', f).value == 1
    ensures Reached(s, f).Some? && Reached(s', f).None? ==> e.Quiet? && f in s.tombs && f !in s'.tombs
    ensures Reached(s, f).Some? && Reached(s', f).Some? ==>
              Reached(s, f).value <= Reached(s', f).value <= Reached(s, f).value + 1 &&
              (e.Quiet? || (e.Wrote? && e.kind == Touched) ==> Reached(s', f) == Reached(s, f))
  {
  }

  // ---------- following the change log ----------

  /** What a client knows of a live object. */
  datatype Seen = Seen(pseudonym: string, revision: int, contentHash: string, contentGeneration: int,
    metaGeneration: int)

  function View(heads: map<string, Head>): map<string, Seen> {
    map f | f in heads ::
      Seen(heads[f].pseudonym, heads[f].revision, heads[f].contentHash, heads[f].contentGeneration,
        heads[f].metaGeneration)
  }

  function Apply(view: map<string, Seen>, c: Change): map<string, Seen> {
    if c.action == Delete then view - {c.fileId}
    else view[c.fileId := Seen(c.pseudonym, c.revision, c.contentHash, c.contentGeneration, c.metaGeneration)]
  }

  function Replay(view: map<string, Seen>, changes: seq<Change>): map<string, Seen> {
    if changes == [] then view else Apply(Replay(view, changes[..|changes| - 1]), changes[|changes| - 1])
  }

  /** A published effect is exactly what applying its change does to the view. */
  lemma EffectIsItsChange(s: Store, s': Store, e: Effect)
    requires Sound(s) && HasEffect(s, s', e)
    ensures e.Quiet? ==> View(s'.heads) == View(s.heads)
    ensures !e.Quiet? ==> View(s'.heads) == Apply(View(s.heads), e.c)
  {
    if e.Erased? { DropSeen(s.heads, e.t.fileId, e.c); }
  }

  lemma DropSeen(heads: map<string, Head>, f: string, c: Change)
    requires c.fileId == f && c.action == Delete
    ensures View(heads - {f}) == Apply(View(heads), c)
  {
  }

  /** The change feed refines the snapshot: whatever happened since, a client that held the
      live set as of sequence n, and whose cursor n the log has not been trimmed past, gets
      exactly the present live set by applying the changes after n in order. */
  lemma {:induction false} FeedRefinesSnapshot(o: Oracle, c: Config, s: Store, steps: seq<Step>)
    requires Sound(s) && Run(o, c, s, steps).repo.minRetained <= s.repo.head
    ensures Replay(View(s.heads), After(Run(o, c, s, steps).log, s.repo.head)) == View(Run(o, c, s, steps).heads)
  {
    if steps == [] {
      AfterDense(s.log, s.repo.minRetained, s.repo.head);
    } else {
      var init, step := steps[..|steps| - 1], steps[|steps| - 1];
      var s0 := Run(o, c, s, init);
      RunKeepsSound(o, c, s, init);
      StepKeepsSound(o, c, s0, step);
      FeedRefinesSnapshot(o, c, s, init);
      var e := StepEffect(o, c, s0, step);
      FeedStep(View(s.heads), s.repo.head, s0, Run(o, c, s, steps), e);
    }
  }

  lemma FeedStep(view: map<string, Seen>, since: int, s: Store, s': Store, e: Effect)
    requires Sound(s) && LogDense(s') && HasEffect(s, s', e) && s'.repo.minRetained <= since <= s.repo.head
    requires Replay(view, After(s.log, since)) == View(s.heads)
    ensures Replay(view, After(s'.log, since)) == View(s'.heads)
  {
    EffectIsItsChange(s, s', e);
    FeedGrows(s, s', e, since);
    var feed := After(s.log, since);
    if e.Quiet? {
      assert feed + [] == feed;
    } else {
      assert (feed + [e.c])[..|feed|] == feed;
    }
  }

  /** Past a cursor the log was not trimmed beyond, a step adds its own change and no other. */
  lemma FeedGrows(s: Store, s': Store, e: Effect, since: int)
    requires LogDense(s) && LogDense(s') && HasEffect(s, s', e)
    requires s'.repo.minRetained <= since <= s.repo.head
    ensures After(s'.log, since) == After(s.log, since) + if e.Quiet? then [] else [e.c]
  {
    if e.Quiet? {
      TrimmedFeed(s.log, s.repo.minRetained, s'.repo.minRetained, since);
    } else {
      AfterDense(s.log, s.repo.minRetained, since);
      AfterDense(s'.log, s'.repo.minRetained, since);
    }
  }

  /** Trimming the log at or before a cursor takes nothing from what follows the cursor. */
  lemma TrimmedFeed(log: seq<Change>, from: int, to: int, since: int)
    requires from <= to <= since <= from + |log|
    requires forall i :: 0 <= i < |log| ==> log[i].sequence == from + 1 + i
    ensures After(After(log, to), since) == After(log, since)
  {
    AfterDense(log, from, to);
    AfterDense(log[to - from..], to, since);
    AfterDense(log, from, since);
  }

  // ---------- fetching the feed page by page ----------

  function Page(log: seq<Change>, since: int, limit: nat): seq<Change> {
    var all := After(log, since);
    if |all| <= limit then all else all[..limit]
  }

  datatype Reply = Resync(minRetained: int) | Changes(page: seq<Change>, latest: int, more: bool)

  function ChangesReply(s: Store, since: int, limit: nat): Reply {
    if since < s.repo.minRetained then Resync(s.repo.minRetained)
    else
      var page := Page(s.log, since, limit);
      Changes(page, s.repo.head, page != [] && page[|page| - 1].sequence < s.repo.head)
  }

  /** What a client that asks with a cursor is told: to start over exactly when changes after the cursor
      were given up; and else the next changes, as many as it asked for or as there are, whether there
      are more, and the present head. */
  lemma ReplyIsExact(s: Store, since: int, limit: nat)
    requires LogDense(s)
    ensures since < s.repo.minRetained ==> ChangesReply(s, since, limit) == Resync(s.repo.minRetained)
    ensures since >= s.repo.minRetained ==> ChangesReply(s, since, limit).Changes?
    ensures var r := ChangesReply(s, since, limit);
            r.Changes? ==>
              |r.page| == AtMost(limit, s.repo.head - since) && r.latest == s.repo.head &&
              (r.more <==> 0 < |r.page| < s.repo.head - since) &&
              forall i :: 0 <= i < |r.page| ==> r.page[i] in s.log && r.page[i].sequence == since + 1 + i
  {
    if since >= s.repo.minRetained {
      AfterDense'(s, since);
      if since <= s.repo.head { PageIs(s, since, limit); }
    }
  }

  function AtMost(limit: nat, n: int): nat {
    if n < 0 then 0 else if n < limit then n else limit
  }

  /** Asking again from the last sequence received until there is no more. */
  ghost function FetchAll(s: Store, since: int, limit: nat): seq<Change>
    requires LogDense(s) && s.repo.minRetained <= since && 0 < limit
    decreases s.repo.head - since
  {
    var r := ChangesReply(s, since, limit);
    AfterDense'(s, since);
    if r.more then r.page + FetchAll(s, r.page[|r.page| - 1].sequence, limit) else r.page
  }

  lemma AfterDense'(s: Store, since: int)
    requires LogDense(s) && s.repo.minRetained <= since
    ensures After(s.log, since) == if since <= s.repo.head then s.log[since - s.repo.minRetained..] else []
    ensures forall i :: 0 <= i < |After(s.log, since)| ==> After(s.log, since)[i].sequence == since + 1 + i
  {
    if since <= s.repo.head {
      AfterDense(s.log, s.repo.minRetained, since);
    } else {
      AfterEnd(s.log, since);
    }
  }

  lemma {:induction false} AfterEnd(log: seq<Change>, since: int)
    requires forall i :: 0 <= i < |log| ==> log[i].sequence <= since
    ensures After(log, since) == []
  {
    if log != [] { AfterEnd(log[1..], since); }
  }

  lemma PageIs(s: Store, since: int, limit: nat)
    requires LogDense(s) && s.repo.minRetained <= since <= s.repo.head
    ensures var at, n := since - s.repo.minRetained, |Page(s.log, since, limit)|;
            at + n <= |s.log| && Page(s.log, since, limit) == s.log[at..][..n]
  {
    AfterDense(s.log, s.repo.minRetained, since);
  }

  lemma PageEnds(s: Store, since: int, limit: nat)
    requires LogDense(s) && s.repo.minRetained <= since && Page(s.log, since, limit) != []
    ensures var page := Page(s.log, since, limit); page[|page| - 1].sequence == since + |page| <= s.repo.head
  {
    AfterDense'(s, since);
    PageIs(s, since, limit);
  }

  /** A page is the head of the feed, and the feed goes on after its last sequence. */
  lemma PageThenRest(s: Store, since: int, limit: nat)
    requires LogDense(s) && s.repo.minRetained <= since
    ensures After(s.log, since) == Page(s.log, since, limit) + After(s.log, since + |Page(s.log, since, limit)|)
  {
    var page := Page(s.log, since, limit);
    if since <= s.repo.head {
      var at := since - s.repo.minRetained;
      PageIs(s, since, limit);
      AfterDense(s.log, s.repo.minRetained, since);
      AfterDense(s.log, s.repo.minRetained, since + |page|);
    } else {
      AfterDense'(s, since);
    }
  }

  lemma NoMoreIsAll(s: Store, since: int, limit: nat)
    requires LogDense(s) && s.repo.minRetained <= since && 0 < limit && !ChangesReply(s, since, limit).more
    ensures Page(s.log, since, limit) == After(s.log, since)
  {
    AfterDense'(s, since);
    if Page(s.log, since, limit) != [] { PageEnds(s, since, limit); }
  }

  /** Pages of any size add up to the whole feed: none is skipped, none comes twice. */
  lemma {:induction false} PagesAddUp(s: Store, since: int, limit: nat)
    requires LogDense(s) && s.repo.minRetained <= since && 0 < limit
    ensures FetchAll(s, since, limit) == After(s.log, since)
    decreases s.repo.head - since
  {
    var r := ChangesReply(s, since, limit);
    PageThenRest(s, since, limit);
    if r.more {
      PageEnds(s, since, limit);
      PagesAddUp(s, since + |r.page|, limit);
    } else {
      NoMoreIsAll(s, since, limit);
    }
  }
}
